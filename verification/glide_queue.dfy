/**
 The shared memory between guest and host: a command queue, a payload area and an
 output page, all in one block of words.
 */
module GlideQueue {
  import opened Words
  import opened Vertex3x
  import opened GlideCalls

  const SHM_WORDS: nat := 0xC0000       // GRSHM_SIZE, in words
  const FIRST_FIFO: nat := 24
  const MAX_FIFO: nat := 0x10000
  const MAX_DATA: nat := 0xAC000
  const FIRST_DATA: nat := 2            // ALIGNED(1), in words
  const DATA: nat := MAX_FIFO           // the payload area starts here
  const OUT: nat := 0xBFC00             // the last page, where results are left

  // ---------- queued commands ----------

  function Entry(e: Event): seq<Word> {
    [e.fenum] + e.args
  }

  function FifoWords(es: seq<Event>): seq<Word> {
    if es == [] then [] else Entry(es[0]) + FifoWords(es[1..])
  }

  lemma {:induction false} FifoWordsAppend(es: seq<Event>, e: Event)
    ensures FifoWords(es + [e]) == FifoWords(es) + Entry(e)
  {
    if es == [] {
      assert es + [e] == [e];
    } else {
      assert (es + [e])[1..] == es[1..] + [e];
      FifoWordsAppend(es[1..], e);
    }
  }

  // ---------- queued payload ----------

  // Pieces cs lie in m from word j on, each starting on an even word.
  ghost predicate PayloadAt(m: seq<Word>, j: nat, cs: seq<seq<Word>>)
    decreases cs
  {
    cs == [] ||
    (j + |cs[0]| <= |m| && m[j..j + |cs[0]|] == cs[0] && PayloadAt(m, j + PadEven(|cs[0]|), cs[1..]))
  }

  function DataLen(es: seq<Event>): nat {
    if es == [] then 0 else PayLen(es[0].chunks) + DataLen(es[1..])
  }

  ghost predicate DataAt(m: seq<Word>, j: nat, es: seq<Event>)
    decreases es
  {
    es == [] || (PayloadAt(m, j, es[0].chunks) && DataAt(m, j + PayLen(es[0].chunks), es[1..]))
  }

  lemma {:induction false} DataLenAppend(es: seq<Event>, e: Event)
    ensures DataLen(es + [e]) == DataLen(es) + PayLen(e.chunks)
  {
    if es == [] {
      assert es + [e] == [e];
    } else {
      assert (es + [e])[1..] == es[1..] + [e];
      DataLenAppend(es[1..], e);
    }
  }

  lemma {:induction false} PayLenIsEven(cs: seq<seq<Word>>)
    ensures PayLen(cs) % 2 == 0
  {
    if cs == [] {
    } else {
      PayLenIsEven(cs[1..]);
    }
  }

  lemma {:induction false} DataLenIsEven(es: seq<Event>)
    ensures DataLen(es) % 2 == 0
  {
    if es == [] {
    } else {
      PayLenIsEven(es[0].chunks);
      DataLenIsEven(es[1..]);
    }
  }

  // Each piece can be found from the lengths of the pieces before it.
  lemma {:induction false} PayloadPiece(m: seq<Word>, j: nat, cs: seq<seq<Word>>, k: nat)
    requires PayloadAt(m, j, cs) && k < |cs|
    ensures j + PayLen(cs[..k]) + |cs[k]| <= |m|
    ensures m[j + PayLen(cs[..k])..j + PayLen(cs[..k]) + |cs[k]|] == cs[k]
    decreases cs
  {
    if k == 0 {
    } else {
      PayloadPiece(m, j + PadEven(|cs[0]|), cs[1..], k - 1);
      assert cs[..k][1..] == cs[1..][..k - 1];
    }
  }

  lemma {:induction false} PayloadAppend(m: seq<Word>, j: nat, cs: seq<seq<Word>>, c: seq<Word>)
    requires PayloadAt(m, j, cs)
    requires j + PayLen(cs) + |c| <= |m| && m[j + PayLen(cs)..j + PayLen(cs) + |c|] == c
    ensures PayloadAt(m, j, cs + [c])
    decreases cs
  {
    if cs == [] {
      assert cs + [c] == [c];
    } else {
      assert (cs + [c])[1..] == cs[1..] + [c];
      PayloadAppend(m, j + PadEven(|cs[0]|), cs[1..], c);
    }
  }

  lemma {:induction false} DataAppend(m: seq<Word>, j: nat, es: seq<Event>, e: Event)
    requires DataAt(m, j, es) && PayloadAt(m, j + DataLen(es), e.chunks)
    ensures DataAt(m, j, es + [e])
    decreases es
  {
    if es == [] {
      assert es + [e] == [e];
    } else {
      assert (es + [e])[1..] == es[1..] + [e];
      DataAppend(m, j + PayLen(es[0].chunks), es[1..], e);
    }
  }

  // m' agrees with m on words lo..hi.
  ghost predicate SameOn(m: seq<Word>, m': seq<Word>, lo: nat, hi: nat) {
    |m| == |m'| && hi <= |m| && forall k :: lo <= k < hi ==> m[k] == m'[k]
  }

  // Two steps that both leave lo..hi alone leave it alone together.
  lemma SameOnTrans(m: seq<Word>, m1: seq<Word>, m2: seq<Word>, lo: nat, hi: nat, lo1: nat, hi1: nat)
    requires SameOn(m, m1, lo, hi) && SameOn(m1, m2, lo1, hi1) && lo1 <= lo && hi <= hi1
    ensures SameOn(m, m2, lo, hi)
  {
  }

  lemma {:induction false} PayloadFrame(m: seq<Word>, m': seq<Word>, j: nat, cs: seq<seq<Word>>)
    requires PayloadAt(m, j, cs) && SameOn(m, m', j, j + PayLen(cs))
    ensures PayloadAt(m', j, cs)
    decreases cs
  {
    if cs == [] {
    } else {
      PayloadFrame(m, m', j + PadEven(|cs[0]|), cs[1..]);
      assert m'[j..j + |cs[0]|] == m[j..j + |cs[0]|];
    }
  }

  lemma {:induction false} DataFrame(m: seq<Word>, m': seq<Word>, j: nat, es: seq<Event>)
    requires DataAt(m, j, es) && SameOn(m, m', j, j + DataLen(es))
    ensures DataAt(m', j, es)
    decreases es
  {
    if es == [] {
    } else {
      PayloadFrame(m, m', j, es[0].chunks);
      DataFrame(m, m', j + PayLen(es[0].chunks), es[1..]);
    }
  }

  // ---------- layout state along the stream ----------

  function VlutFold(v: Vlut, es: seq<Event>): Vlut
    decreases es
  {
    if es == [] then v else VlutFold(VlutAfter(v, es[0]), es[1..])
  }

  // Every event of es can be framed under the layout its predecessors leave.
  ghost predicate FramedAll(es: seq<Event>, v: Vlut, glide3: bool) {
    es == [] || (Framed(es[0], v, glide3) && FramedAll(es[1..], VlutAfter(v, es[0]), glide3))
  }

  lemma {:induction false} FoldAppend(v: Vlut, es: seq<Event>, e: Event, glide3: bool)
    ensures VlutFold(v, es + [e]) == VlutAfter(VlutFold(v, es), e)
    ensures FramedAll(es, v, glide3) && Framed(e, VlutFold(v, es), glide3) ==> FramedAll(es + [e], v, glide3)
    decreases es
  {
    if es == [] {
      assert es + [e] == [e];
      assert [e][1..] == [];
    } else {
      assert (es + [e])[1..] == es[1..] + [e];
      FoldAppend(VlutAfter(v, es[0]), es[1..], e, glide3);
    }
  }

  // ---------- words written past a payload ----------

  ghost predicate Spills(es: seq<Event>) {
    exists e :: e in es && Spill(e) > 0
  }

  // Nothing queued behind a call that spills has payload.
  ghost predicate Calm(es: seq<Event>)
    decreases es
  {
    es == [] || ((Spill(es[0]) > 0 ==> DataLen(es[1..]) == 0) && Calm(es[1..]))
  }

  lemma SpillsAppend(es: seq<Event>, e: Event)
    ensures Spills(es + [e]) <==> Spills(es) || Spill(e) > 0
  {
    hide Spill;
    if Spill(e) > 0 {
      assert e in es + [e];
    }
    if Spills(es) {
      var x :| x in es && Spill(x) > 0;
      assert x in es + [e];
    }
  }

  lemma {:induction false} CalmAppend(es: seq<Event>, e: Event)
    ensures Calm(es + [e]) <==> Calm(es) && (Spills(es) ==> PayLen(e.chunks) == 0)
  {
    hide Spill, PayLen, Spills;
    if es == [] {
      assert es + [e] == [e] && [e][1..] == [];
      NothingSpills();
    } else {
      assert (es + [e])[1..] == es[1..] + [e];
      SpillsCons(es);
      DataLenAppend(es[1..], e);
      CalmAppend(es[1..], e);
    }
  }

  lemma NothingSpills()
    ensures !Spills([])
  {
  }

  lemma SpillsCons(es: seq<Event>)
    requires es != []
    ensures Spills(es) <==> Spill(es[0]) > 0 || Spills(es[1..])
  {
    hide Spill;
    assert es == [es[0]] + es[1..];
  }

  // Host address `base + 4 * j` of word j, as the two words a pointer to it takes.
  function PointerWords(base: nat, j: nat): (r: seq<Word>)
    ensures |r| == 2
    ensures base + 4 * j < 0x1_0000_0000_0000_0000 ==> (r[0] as int) + 0x1_0000_0000 * (r[1] as int) == base + 4 * j
  {
    [(base + 4 * j) % 0x1_0000_0000, (base + 4 * j) / 0x1_0000_0000 % 0x1_0000_0000]
  }

  // Memory once the host has sized call e, whose payload starts at word j: a mip-map level
  // gets a pointer to its texture right behind the texture.
  function LeftBy(m: seq<Word>, j: nat, e: Event, base: nat): (r: seq<Word>)
    ensures |r| == |m|
  {
    if KindOf(e.fenum).GuMipMapLevel? && |e.args| > 3 && j + Aligned(e.args[3]) / 4 + 2 <= |m| then
      m[..j + Aligned(e.args[3]) / 4] + PointerWords(base, j) + m[j + Aligned(e.args[3]) / 4 + 2..]
    else m
  }

  // ---------- the queue as a whole ----------

  // m holds exactly the events es, queued under layout v and not yet seen by the host.
  ghost predicate Queued(m: seq<Word>, es: seq<Event>, v: Vlut, glide3: bool) {
    && |m| == SHM_WORDS
    && m[0] == FIRST_FIFO + |FifoWords(es)| < MAX_FIFO
    && m[FIRST_FIFO..m[0]] == FifoWords(es)
    && DATA + FIRST_DATA + DataLen(es) <= OUT
    && DataAt(m, DATA + FIRST_DATA, es)
    && FramedAll(es, v, glide3) && Calm(es)
    && forall e :: e in es ==> QueuedArgs(e.fenum).Some?
  }

  // The payload of a further call follows the queued payload.
  ghost predicate Staged(m: seq<Word>, es: seq<Event>, cs: seq<seq<Word>>) {
    && |m| == SHM_WORDS
    && m[DATA] == FIRST_DATA + DataLen(es) + PayLen(cs)
    && DATA + m[DATA] <= OUT
    && PayloadAt(m, DATA + FIRST_DATA + DataLen(es), cs)
    && (Spills(es) ==> PayLen(cs) == 0)
  }

  lemma QueuedFrame(m: seq<Word>, m': seq<Word>, es: seq<Event>, v: Vlut, glide3: bool)
    requires Queued(m, es, v, glide3) && |m'| == |m| && m'[0] == m[0]
    requires SameOn(m, m', FIRST_FIFO, m[0])
    requires SameOn(m, m', DATA + FIRST_DATA, DATA + FIRST_DATA + DataLen(es))
    ensures Queued(m', es, v, glide3)
  {
    hide DataLen, FifoWords, DataAt, FramedAll, QueuedArgs, Calm;
    assert m'[FIRST_FIFO..m[0]] == m[FIRST_FIFO..m[0]];
    DataFrame(m, m', DATA + FIRST_DATA, es);
  }

  lemma StagedBounds(m: seq<Word>, es: seq<Event>, cs: seq<seq<Word>>)
    requires Staged(m, es, cs)
    ensures |m| == SHM_WORDS && FIRST_DATA <= m[DATA] && DATA + m[DATA] <= OUT && m[DATA] % 2 == 0
  {
    DataLenIsEven(es);
    PayLenIsEven(cs);
  }

  // Staging one more piece behind those already there.
  lemma StagedAppend(m: seq<Word>, m': seq<Word>, es: seq<Event>, cs: seq<seq<Word>>, c: seq<Word>, v: Vlut,
      glide3: bool)
    requires Queued(m, es, v, glide3) && Staged(m, es, cs) && DATA + m[DATA] + PadEven(|c|) <= OUT
    requires Spills(es) ==> PadEven(|c|) == 0
    requires SameOn(m, m', 0, DATA) && SameOn(m, m', DATA + FIRST_DATA, DATA + m[DATA])
    requires m'[DATA] == m[DATA] + PadEven(|c|) && m'[DATA + m[DATA]..DATA + m[DATA] + |c|] == c
    ensures Queued(m', es, v, glide3) && Staged(m', es, cs + [c])
  {
    hide DataLen, PayLen, FifoWords, PayloadAt, DataAt, FramedAll, Calm, Spills;
    var j := DATA + FIRST_DATA + DataLen(es);
    PayloadFrame(m, m', j, cs);
    PayLenAppend(cs, c);
    PayloadAppend(m', j, cs, c);
    QueuedFrame(m, m', es, v, glide3);
  }

  // Writing the argument window disturbs neither queue nor payload.
  lemma WindowFrame(m: seq<Word>, m': seq<Word>, es: seq<Event>, cs: seq<seq<Word>>, v: Vlut, glide3: bool)
    requires Queued(m, es, v, glide3) && Staged(m, es, cs)
    requires |m'| == |m| && m'[0] == m[0] && SameOn(m, m', FIRST_FIFO, SHM_WORDS)
    ensures Queued(m', es, v, glide3) && Staged(m', es, cs)
  {
    hide DataLen, PayLen, FifoWords, PayloadAt, DataAt, FramedAll, Calm, Spills;
    QueuedFrame(m, m', es, v, glide3);
    PayloadFrame(m, m', DATA + FIRST_DATA + DataLen(es), cs);
  }

  // Queueing a staged call behind the others.
  lemma QueuedAppend(m: seq<Word>, m': seq<Word>, es: seq<Event>, e: Event, v: Vlut, glide3: bool)
    requires Queued(m, es, v, glide3) && Staged(m, es, e.chunks)
    requires Framed(e, VlutFold(v, es), glide3) && QueuedArgs(e.fenum).Some?
    requires |m'| == |m| && m'[0] == m[0] + 1 + |e.args| < MAX_FIFO
    requires m'[FIRST_FIFO..m[0]] == m[FIRST_FIFO..m[0]] && m'[m[0]..m'[0]] == Entry(e)
    requires SameOn(m, m', MAX_FIFO, SHM_WORDS)
    ensures Queued(m', es + [e], v, glide3) && Staged(m', es + [e], [])
  {
    hide Framed, VlutAfter, QueuedArgs, Calm, Spills;
    CalmAppend(es, e);
    var n := m[0];
    FifoWordsAppend(es, e);
    DataLenAppend(es, e);
    FoldAppend(v, es, e, glide3);
    assert m'[FIRST_FIFO..m'[0]] == m'[FIRST_FIFO..n] + m'[n..m'[0]];
    DataFrame(m, m', DATA + FIRST_DATA, es);
    PayloadFrame(m, m', DATA + FIRST_DATA + DataLen(es), e.chunks);
    DataAppend(m', DATA + FIRST_DATA, es, e);
  }

  // ---------- the two cursors ----------

  // Words in use in the queue and in the payload area, as their first words count them.
  datatype Cursor = Cursor(fifo: nat, data: nat)

  const START := Cursor(FIRST_FIFO, FIRST_DATA)

  function CursorOf(m: seq<Word>): Cursor
    requires |m| == SHM_WORDS
  {
    Cursor(m[0], m[DATA])
  }

  // After a call: queued when both room tests pass, else the trigger starts them afresh.
  function NextCursor(cur: Cursor, e: Event, fifoEn: bool): Cursor {
    var data := cur.data + PayLen(e.chunks);
    match QueuedArgs(e.fenum)
    case None => START
    case Some(n) =>
      if fifoEn && cur.fifo + (n + 1) < MAX_FIFO && data < MAX_DATA then Cursor(cur.fifo + 1 + n, data) else START
  }

  // The cursors count what is queued and staged.
  lemma CursorCounts(m: seq<Word>, es: seq<Event>, cs: seq<seq<Word>>, v: Vlut, glide3: bool)
    requires Queued(m, es, v, glide3) && Staged(m, es, cs)
    ensures CursorOf(m) == Cursor(FIRST_FIFO + |FifoWords(es)|, FIRST_DATA + DataLen(es) + PayLen(cs))
    ensures (m[0] == FIRST_FIFO <==> es == []) && PayLen([]) == 0
  {
    hide DataLen, PayloadAt, DataAt, FramedAll, QueuedArgs, Calm, Spills;
  }

  // ---------- part-way through a drain ----------

  // Cursors i and j stand before the events rest, the last of which ends at word n.
  ghost predicate Remaining(m: seq<Word>, i: nat, j: nat, n: nat, rest: seq<Event>, v: Vlut, glide3: bool) {
    && |m| == SHM_WORDS && FIRST_FIFO <= i && i + |FifoWords(rest)| == n < MAX_FIFO
    && m[i..n] == FifoWords(rest)
    && FIRST_DATA <= j && DATA + j + DataLen(rest) <= OUT
    && DataAt(m, DATA + j, rest)
    && FramedAll(rest, v, glide3) && Calm(rest)
    && forall e :: e in rest ==> QueuedArgs(e.fenum).Some?
  }

  // The words of an entry, found where the queue says it starts.
  lemma EntryWords(m: seq<Word>, i: nat, n: nat, e: Event, tail: seq<Word>)
    requires i <= n <= |m| && m[i..n] == Entry(e) + tail
    ensures i + 1 + |e.args| <= n && m[i] == e.fenum && m[i + 1..i + 1 + |e.args|] == e.args
  {
    assert |m[i..n]| == 1 + |e.args| + |tail|;
    assert m[i] == m[i..n][0];
    forall k | 0 <= k < |e.args| ensures m[i + 1 + k] == e.args[k] {
      assert m[i + 1 + k] == m[i..n][1 + k] == (Entry(e) + tail)[1 + k];
    }
  }

  lemma RemainingHead(m: seq<Word>, i: nat, j: nat, n: nat, rest: seq<Event>, v: Vlut, glide3: bool)
    requires Remaining(m, i, j, n, rest, v, glide3) && i < n
    ensures rest != [] && FIRST_FIFO <= i && n < MAX_FIFO && FIRST_DATA <= j && |m| == SHM_WORDS
    ensures var e := rest[0];
            && m[i] == e.fenum && Framed(e, v, glide3) && QueuedArgs(e.fenum).Some?
            && i + 1 + |e.args| <= n && m[i + 1..i + 1 + |e.args|] == e.args
            && DATA + j + PayLen(e.chunks) <= OUT && PayloadAt(m, DATA + j, e.chunks)
  {
    hide Framed, QueuedArgs, VlutAfter, PayLen, PayloadAt;
    assert rest[0] in rest;
    EntryWords(m, i, n, rest[0], FifoWords(rest[1..]));
  }

  // After the first event ran, the cursors stand before the next.
  lemma RemainingTail(m: seq<Word>, m': seq<Word>, i: nat, j: nat, n: nat, rest: seq<Event>, v: Vlut, glide3: bool)
    requires Remaining(m, i, j, n, rest, v, glide3) && i < n && rest != []
    requires SameOn(m, m', 0, DATA + FIRST_DATA)
    requires SameOn(m, m', DATA + j + PayLen(rest[0].chunks) + Spill(rest[0]), OUT)
    ensures Remaining(m', i + 1 + |rest[0].args|, j + PayLen(rest[0].chunks), n, rest[1..], VlutAfter(v, rest[0]),
        glide3)
  {
    hide SymbolArgs, QueuedArgs, Framed, VlutAfter, Spill;
    var e := rest[0];
    assert FifoWords(rest) == Entry(e) + FifoWords(rest[1..]);
    assert m'[i + 1 + |e.args|..n] == m[i..n][1 + |e.args|..];
    DataFrame(m, m', DATA + j + PayLen(e.chunks), rest[1..]);
  }

  lemma RemainingStart(m: seq<Word>, es: seq<Event>, v: Vlut, glide3: bool)
    requires Queued(m, es, v, glide3)
    ensures Remaining(m, FIRST_FIFO, FIRST_DATA, m[0], es, v, glide3)
  {
  }

  lemma RemainingEnd(m: seq<Word>, i: nat, j: nat, n: nat, rest: seq<Event>, v: Vlut, glide3: bool)
    requires Remaining(m, i, j, n, rest, v, glide3) && n <= i
    ensures i == n && rest == [] && DataLen(rest) == 0 && VlutFold(v, rest) == v
  {
  }

  // ---------- reading a frame buffer region back ----------

  // Memory after the library left `out` where the trigger found the call's payload:
  // behind everything queued.
  function AfterRegionRead(m: seq<Word>, queued: nat, out: seq<Word>): seq<Word>
    requires |m| == SHM_WORDS && DATA + FIRST_DATA + queued + |out| <= OUT
  {
    m[..DATA + FIRST_DATA + queued] + out + m[DATA + FIRST_DATA + queued + |out|..]
  }

  // What the guest copies out afterwards, from the start of the payload area.
  function RegionReadBack(m: seq<Word>, queued: nat, out: seq<Word>): seq<Word>
    requires |m| == SHM_WORDS && DATA + FIRST_DATA + queued + |out| <= OUT
  {
    AfterRegionRead(m, queued, out)[DATA + FIRST_DATA..DATA + FIRST_DATA + |out|]
  }

  // Memory whose words before the region are m's and in which the region is out reads back so.
  lemma ReadBackIs(m: seq<Word>, left: seq<Word>, m': seq<Word>, queued: nat, out: seq<Word>)
    requires |m| == SHM_WORDS && DATA + FIRST_DATA + queued + |out| <= OUT
    requires SameOn(m, left, 0, DATA + FIRST_DATA + queued)
    requires |left| == |m| && left[DATA + FIRST_DATA + queued..DATA + FIRST_DATA + queued + |out|] == out
    requires |m'| == |left| && forall w :: 0 <= w < |left| && w != DATA ==> m'[w] == left[w]
    ensures m'[DATA + FIRST_DATA..DATA + FIRST_DATA + |out|] == RegionReadBack(m, queued, out)
  {
    var r, at := RegionReadBack(m, queued, out), DATA + FIRST_DATA;
    forall k | 0 <= k < |out| ensures m'[at + k] == r[k] {
      if k >= queued {
        assert left[at + queued..at + queued + |out|][k - queued] == left[at + k];
      }
    }
  }

  // The guest gets the region it asked for, whatever that is, exactly when no payload
  // was queued ahead of the call.
  lemma RegionReadBackExact(m: seq<Word>, queued: nat, n: nat)
    requires |m| == SHM_WORDS && 0 < n && DATA + FIRST_DATA + queued + n <= OUT
    ensures (forall out: seq<Word> | |out| == n :: RegionReadBack(m, queued, out) == out) <==> queued == 0
  {
    if queued > 0 {
      var stale := m[DATA + FIRST_DATA];
      var out: seq<Word> := seq(n, _ => if stale == 0 then 1 else 0);
      assert |out| == n && RegionReadBack(m, queued, out)[0] == stale != out[0];
    }
  }
}
