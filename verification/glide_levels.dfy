/**
 Downloads of a mip-map level of no bytes. The wrapper sends nothing for one, and the host
 still leaves a pointer behind the texture: on whatever payload lies there in the batch.
 */
module GlideLevels {
  import opened Words
  import opened Vertex3x
  import opened GlideCalls
  import opened GlideQueue
  import opened GlideHost

  // Where event e's pointer goes, if it has one: the last words of its payload, or the two
  // after an empty one.
  ghost predicate Slotted(e: Event) {
    KindOf(e.fenum).GuMipMapLevel? ==>
      |e.args| > 3 && Aligned(e.args[3]) / 4 + 2 == PayLen(e.chunks) + Spill(e)
  }

  ghost predicate AllSlotted(es: seq<Event>) {
    forall e :: e in es ==> Slotted(e)
  }

  // Drained from word j of m on, each call of es finds its payload, with the shared memory at
  // that host address.
  ghost predicate Reads(m: seq<Word>, j: nat, es: seq<Event>, base: nat)
    decreases es
  {
    es == [] ||
    (PayloadAt(m, j, es[0].chunks) && Reads(LeftBy(m, j, es[0], base), j + PayLen(es[0].chunks), es[1..], base))
  }

  // Wherever the host has mapped the shared memory.
  ghost predicate AlwaysReads(m: seq<Word>, j: nat, es: seq<Event>) {
    forall base: nat :: Reads(m, j, es, base)
  }

  lemma LeftSlot(m: seq<Word>, j: nat, e: Event, base: nat)
    requires Slotted(e)
    ensures forall w :: 0 <= w < |m| && !(j <= w < j + PayLen(e.chunks) + Spill(e)) ==> LeftBy(m, j, e, base)[w] == m[w]
    ensures Spill(e) > 0 ==> PayLen(e.chunks) == 0
    ensures Spill(e) > 0 && j + 2 <= |m| ==> LeftBy(m, j, e, base)[j] == PointerWords(base, j)[0]
  {
    hide PayLen, KindOf, PointerWords;
  }

  // The memory behind a call that does not spill is as it was.
  lemma TailKept(m: seq<Word>, j: nat, es: seq<Event>, base: nat)
    requires es != [] && DataAt(m, j, es) && Slotted(es[0]) && j + DataLen(es) <= |m|
    requires Spill(es[0]) > 0 ==> DataLen(es[1..]) == 0
    ensures DataAt(LeftBy(m, j, es[0], base), j + PayLen(es[0].chunks), es[1..])
  {
    LeftSlot(m, j, es[0], base);
    hide LeftBy, Slotted, Spill, PayLen;
    DataFrame(m, LeftBy(m, j, es[0], base), j + PayLen(es[0].chunks), es[1..]);
  }

  lemma {:induction false} CalmReads(m: seq<Word>, j: nat, es: seq<Event>, base: nat)
    requires DataAt(m, j, es) && AllSlotted(es) && j + DataLen(es) <= |m| && Calm(es)
    ensures Reads(m, j, es, base)
    decreases es
  {
    hide LeftBy, Slotted, Spill, PayLen, PayloadAt;
    if es == [] {
    } else {
      assert es[0] in es && forall e :: e in es[1..] ==> e in es;
      TailKept(m, j, es, base);
      CalmReads(LeftBy(m, j, es[0], base), j + PayLen(es[0].chunks), es[1..], base);
    }
  }

  // ---------- what is lost ----------

  // The first word of the first piece that is not empty.
  function FirstOf(cs: seq<seq<Word>>): Word
    requires PayLen(cs) > 0
  {
    if |cs[0]| > 0 then cs[0][0] else FirstOf(cs[1..])
  }

  function FirstSent(es: seq<Event>): Word
    requires DataLen(es) > 0
  {
    if PayLen(es[0].chunks) > 0 then FirstOf(es[0].chunks) else FirstSent(es[1..])
  }

  lemma {:induction false} FirstRead(m: seq<Word>, j: nat, cs: seq<seq<Word>>)
    requires PayLen(cs) > 0 && PayloadAt(m, j, cs)
    ensures j < |m| && m[j] == FirstOf(cs)
    decreases cs
  {
    if |cs[0]| > 0 {
      assert m[j] == m[j..j + |cs[0]|][0];
    } else {
      FirstRead(m, j, cs[1..]);
    }
  }

  // With another word where their payload starts, those calls do not all find theirs.
  lemma {:induction false} FirstWordLost(m: seq<Word>, j: nat, es: seq<Event>, base: nat)
    requires DataLen(es) > 0 && AllSlotted(es) && j + 2 <= |m|
    requires m[j] == PointerWords(base, j)[0] != FirstSent(es)
    ensures !Reads(m, j, es, base)
    decreases es
  {
    var e := es[0];
    assert e in es && forall x :: x in es[1..] ==> x in es;
    if PayLen(e.chunks) > 0 {
      if PayloadAt(m, j, e.chunks) {
        FirstRead(m, j, e.chunks);
      }
    } else {
      LeftSlot(m, j, e, base);
      assert LeftBy(m, j, e, base)[j] == m[j];
      hide LeftBy, Slotted, PayloadAt, PointerWords;
      FirstWordLost(LeftBy(m, j, e, base), j, es[1..], base);
    }
  }

  // Where event next sent its first word, behind event e, the drain finds the pointer instead.
  ghost predicate TakesPlace(m: seq<Word>, j: nat, e: Event, next: Event, base: nat)
    requires PayLen(next.chunks) > 0
  {
    DataAt(m, j, [e, next]) && j + 2 <= |m| ==>
      m[j] == FirstOf(next.chunks) && LeftBy(m, j, e, base)[j] == PointerWords(base, j)[0]
  }

  // Wherever the two lie.
  ghost predicate Overwrites(e: Event, next: Event)
    requires PayLen(next.chunks) > 0
  {
    forall m: seq<Word>, j: nat, base: nat :: TakesPlace(m, j, e, next, base)
  }

  lemma FirstWordOverwritten(m: seq<Word>, j: nat, e: Event, next: Event, base: nat)
    requires Slotted(e) && Spill(e) > 0 && PayLen(next.chunks) > 0
    ensures TakesPlace(m, j, e, next, base)
  {
    LeftSlot(m, j, e, base);
    if DataAt(m, j, [e, next]) {
      assert [e, next][1..] == [next];
      assert DataAt(m, j + PayLen(e.chunks), [next]);
      hide Slotted, LeftBy, PointerWords, FirstOf;
      FirstRead(m, j, next.chunks);
    }
  }

  lemma LevelOverwrites(e: Event, next: Event)
    requires Slotted(e) && Spill(e) > 0 && PayLen(next.chunks) > 0
    ensures Overwrites(e, next)
  {
    hide Slotted, Spill, TakesPlace;
    forall m: seq<Word>, j: nat, base: nat ensures TakesPlace(m, j, e, next, base) {
      FirstWordOverwritten(m, j, e, next, base);
    }
  }

  // A page-aligned host address at which the pointer to word j does not start with x.
  function BaseAvoiding(j: nat, x: Word): (base: nat)
    ensures PointerWords(base, j)[0] != x && base % 0x1000 == 0
  {
    if PointerWords(0, j)[0] != x then 0
    else
      assert (0x1000 + 4 * j) % 0x1_0000_0000 != 4 * j % 0x1_0000_0000;
      0x1000
  }

  function LosingBase(j: nat, es: seq<Event>): nat
    requires !Calm(es)
    decreases es
  {
    if Spill(es[0]) > 0 && DataLen(es[1..]) > 0 then BaseAvoiding(j + PayLen(es[0].chunks), FirstSent(es[1..]))
    else LosingBase(j + PayLen(es[0].chunks), es[1..])
  }

  // What follows a level of no bytes is lost to a pointer that differs from its first word.
  lemma LostBehind(m: seq<Word>, j: nat, es: seq<Event>, base: nat)
    requires es != [] && Spill(es[0]) > 0 && DataLen(es[1..]) > 0 && AllSlotted(es) && j + 2 <= |m|
    requires PointerWords(base, j + PayLen(es[0].chunks))[0] != FirstSent(es[1..])
    ensures !Reads(m, j, es, base)
  {
    assert es[0] in es && forall x :: x in es[1..] ==> x in es;
    LeftSlot(m, j, es[0], base);
    hide LeftBy, Slotted, Spill, PayLen, PayloadAt, PointerWords, FirstSent, DataLen;
    FirstWordLost(LeftBy(m, j, es[0], base), j, es[1..], base);
  }

  lemma {:induction false} SomethingLost(m: seq<Word>, j: nat, es: seq<Event>)
    requires DataAt(m, j, es) && AllSlotted(es) && j + DataLen(es) + 2 <= |m| && !Calm(es)
    ensures !Reads(m, j, es, LosingBase(j, es))
    decreases es
  {
    var e, base := es[0], LosingBase(j, es);
    assert e in es && forall x :: x in es[1..] ==> x in es;
    hide LeftBy, Slotted, Spill, PayLen, PayloadAt, PointerWords, FirstSent, BaseAvoiding;
    if Spill(e) > 0 && DataLen(es[1..]) > 0 {
      hide LosingBase;
      LostBehind(m, j, es, base);
    } else {
      TailKept(m, j, es, base);
      SomethingLost(LeftBy(m, j, e, base), j + PayLen(e.chunks), es[1..]);
    }
  }

  // Every call of a batch finds its payload, wherever the host has mapped the memory, exactly
  // when no payload lies behind a level of no bytes.
  lemma ReadsExact(m: seq<Word>, j: nat, es: seq<Event>)
    requires DataAt(m, j, es) && AllSlotted(es) && j + DataLen(es) + 2 <= |m|
    ensures AlwaysReads(m, j, es) <==> Calm(es)
  {
    hide Calm, DataAt, AllSlotted, Reads, PayLen, Spill;
    if Calm(es) {
      forall base: nat ensures Reads(m, j, es, base) {
        CalmReads(m, j, es, base);
      }
    } else {
      SomethingLost(m, j, es);
    }
  }

  // ---------- some memory holds any batch ----------

  function LaidPieces(cs: seq<seq<Word>>): (r: seq<Word>)
    ensures |r| == PayLen(cs)
  {
    if cs == [] then [] else cs[0] + (if |cs[0]| % 2 != 0 then [0] else []) + LaidPieces(cs[1..])
  }

  function Laid(es: seq<Event>): (r: seq<Word>)
    ensures |r| == DataLen(es)
  {
    if es == [] then [] else LaidPieces(es[0].chunks) + Laid(es[1..])
  }

  lemma {:induction false} PiecesLie(m: seq<Word>, j: nat, cs: seq<seq<Word>>)
    requires j + PayLen(cs) <= |m| && m[j..j + PayLen(cs)] == LaidPieces(cs)
    ensures PayloadAt(m, j, cs)
    decreases cs
  {
    if cs == [] {
    } else {
      var n := PadEven(|cs[0]|);
      assert m[j..j + |cs[0]|] == m[j..j + PayLen(cs)][..|cs[0]|] == cs[0];
      assert m[j + n..j + n + PayLen(cs[1..])] == m[j..j + PayLen(cs)][n..] == LaidPieces(cs[1..]);
      PiecesLie(m, j + n, cs[1..]);
    }
  }

  lemma {:induction false} DataLies(m: seq<Word>, j: nat, es: seq<Event>)
    requires j + DataLen(es) <= |m| && m[j..j + DataLen(es)] == Laid(es)
    ensures DataAt(m, j, es)
    decreases es
  {
    hide LaidPieces, PayLen, PayloadAt;
    if es == [] {
    } else {
      var n := PayLen(es[0].chunks);
      assert m[j..j + n] == m[j..j + DataLen(es)][..n] == LaidPieces(es[0].chunks);
      PiecesLie(m, j, es[0].chunks);
      assert m[j + n..j + n + DataLen(es[1..])] == m[j..j + DataLen(es)][n..] == Laid(es[1..]);
      DataLies(m, j + n, es[1..]);
    }
  }

  // Any memory that holds the batch will do.
  ghost predicate Spared(es: seq<Event>) {
    forall m: seq<Word>, j: nat | DataAt(m, j, es) && j + DataLen(es) + 2 <= |m| :: AlwaysReads(m, j, es)
  }

  lemma SparedExact(es: seq<Event>)
    requires AllSlotted(es)
    ensures Spared(es) <==> Calm(es)
  {
    hide Calm, DataAt, AllSlotted, AlwaysReads, DataLen;
    forall m: seq<Word>, j: nat | DataAt(m, j, es) && j + DataLen(es) + 2 <= |m|
      ensures AlwaysReads(m, j, es) <==> Calm(es)
    {
      ReadsExact(m, j, es);
    }
    var m := Laid(es) + [0, 0];
    assert m[0..0 + DataLen(es)] == Laid(es);
    DataLies(m, 0, es);
  }
}
