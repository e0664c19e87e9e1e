/**
 Placing mapped buffers in the guest-physical window. The placement compares page-floored
 ranges, and those stay apart over every run; the pages the hypervisor really maps are
 rounded up, and those stay apart exactly when rounding adds nothing.
 */
module GpaWindow {
  import opened Words
  import opened BufObj
  import opened HeapList

  const MBUFO_SIZE := 0x800_0000
  const UINT32 := 0x1_0000_0000

  // The host address cut to the window.
  function InWindow(hva: nat): nat {
    hva % 0x800_0000
  }

  // A sum kept in 32 bits.
  function U32(x: nat): nat {
    x % 0x1_0000_0000
  }

  // The host page size; the masks in the code are these floors for a power of two.
  type Page = p: int | p >= 1 witness 0x1000

  // ---------- page arithmetic ----------

  // Quotient, remainder and multiple, named so that proofs can keep to linear facts.
  function Pages(x: nat, pg: Page): nat {
    x / pg
  }

  function Rem(x: nat, pg: Page): (r: nat)
    ensures r < pg
  {
    x % pg
  }

  function Times(q: nat, pg: Page): nat {
    q * pg
  }

  lemma Split(x: nat, pg: Page)
    ensures x == Times(Pages(x, pg), pg) + Rem(x, pg)
  {
  }

  lemma TimesAdd(a: nat, b: nat, pg: Page)
    ensures Times(a + b, pg) == Times(a, pg) + Times(b, pg)
    ensures Times(0, pg) == 0 && Times(1, pg) == pg
  {
  }

  lemma TimesMonotone(a: nat, b: nat, pg: Page)
    requires a <= b
    ensures Times(a, pg) <= Times(b, pg)
  {
    assert b == a + (b - a);
    TimesAdd(a, b - a, pg);
  }

  lemma SplitUnique(x: nat, q: nat, r: nat, pg: Page)
    requires r < pg && x == Times(q, pg) + r
    ensures Rem(x, pg) == r && Pages(x, pg) == q
  {
    hide Times, Pages, Rem;
    var q' := Pages(x, pg);
    Split(x, pg);
    TimesAdd(q, 1, pg);
    TimesAdd(q', 1, pg);
    if q < q' {
      TimesMonotone(q + 1, q', pg);
    } else if q' < q {
      TimesMonotone(q' + 1, q, pg);
    }
  }

  function Floor(x: nat, pg: Page): (r: nat)
    ensures r <= x < r + pg
  {
    Split(x, pg);
    x - Rem(x, pg)
  }

  function Ceil(x: nat, pg: Page): nat {
    if Rem(x, pg) == 0 then x else Floor(x, pg) + pg
  }

  lemma FloorMonotone(x: nat, y: nat, pg: Page)
    requires x <= y
    ensures Floor(x, pg) <= Floor(y, pg)
  {
    hide Times, Pages, Rem;
    var a, b := Pages(x, pg), Pages(y, pg);
    Split(x, pg);
    Split(y, pg);
    if a <= b {
      TimesMonotone(a, b, pg);
    } else {
      TimesAdd(b, 1, pg);
      TimesMonotone(b + 1, a, pg);
    }
  }

  // A floor is its own floor, so a floor at or below x is at or below the floor of x.
  lemma FloorOfFloor(x: nat, pg: Page)
    ensures Floor(Floor(x, pg), pg) == Floor(x, pg)
  {
    hide Times, Pages, Rem;
    Split(x, pg);
    SplitUnique(Floor(x, pg), Pages(x, pg), 0, pg);
  }

  lemma FloorBelow(a: nat, x: nat, pg: Page)
    requires Floor(a, pg) <= x
    ensures Floor(a, pg) <= Floor(x, pg)
  {
    hide Floor;
    FloorOfFloor(a, pg);
    FloorMonotone(Floor(a, pg), x, pg);
  }

  // ---------- the placement ----------

  // Where in its host page the buffer begins.
  function Offset(b: Bufo, pg: Page): (r: nat)
    ensures r < pg
  {
    Rem(b.hva, pg)
  }

  // Bytes a record takes, with the offset of its host address in a page (32-bit sums).
  function Extent(b: Bufo, pg: Page): nat {
    U32(b.mapsz + Offset(b, pg))
  }

  // The room asked for when placing it.
  function Need(b: Bufo, pg: Page): nat {
    U32(AlignBo(b.mapsz) + Offset(b, pg))
  }

  function Start(b: Bufo, pg: Page): nat {
    Floor(b.gpa, pg)
  }

  function End(b: Bufo, pg: Page): nat {
    Floor(b.gpa + Extent(b, pg), pg)
  }

  // Lowest start and highest end among the records, as the loop accumulates them.
  function AddrLo(s: seq<Bufo>, pg: Page): nat {
    if s == [] then MBUFO_SIZE - 1
    else
      var lo := AddrLo(s[..|s| - 1], pg);
      if Start(s[|s| - 1], pg) < lo then Start(s[|s| - 1], pg) else lo
  }

  function AddrHi(s: seq<Bufo>, pg: Page): nat {
    if s == [] then 0
    else
      var hi := AddrHi(s[..|s| - 1], pg);
      if End(s[|s| - 1], pg) > hi then End(s[|s| - 1], pg) else hi
  }

  datatype Where = Own | Below | Above | Exhausted

  // Where a record with the records of s before it in the list goes.
  function Choice(s: seq<Bufo>, b: Bufo, pg: Page): Where {
    var own := InWindow(b.hva);
    if s == [] || own + Need(b, pg) < AddrLo(s, pg) || own >= AddrHi(s, pg) then Own
    else if AddrLo(s, pg) > Need(b, pg) then Below
    else if AddrHi(s, pg) + Need(b, pg) < MBUFO_SIZE then Above
    else Exhausted
  }

  function Gpa(s: seq<Bufo>, b: Bufo, pg: Page): nat {
    match Choice(s, b, pg)
    case Own => InWindow(b.hva)
    case Below => AddrLo(s, pg) - Need(b, pg)
    case Above => AddrHi(s, pg)
    case Exhausted => 0
  }

  function Placed(s: seq<Bufo>, b: Bufo, pg: Page): Bufo {
    b.(gpa := Gpa(s, b, pg), lvl := |s|)
  }

  // MapBufObjGpa walks the list up to the record.
  method MapBufObjGpa(l: BufObjs, bufo: Node<Bufo>, pg: Page, ghost i: nat) returns (ret: nat)
    requires l.Valid() && i < |l.nodes| && bufo == l.nodes[i]
    modifies bufo`item
    ensures ret == i
    ensures bufo.item == old(bufo.item).(gpa := Gpa(old(l.Contents())[..i], old(bufo.item), pg))
  {
    hide AddrLo, AddrHi, Extent, Need, Start, End, Distinct, List<Bufo>.Contents;
    ghost var s := l.Contents();
    ghost var b := bufo.item;
    DistinctAt(l.nodes, i);
    var curr := l.head;
    ret := 0;
    bufo.item := bufo.item.(gpa := InWindow(bufo.item.hva));
    if bufo != curr {
      var lo, hi, need := MBUFO_SIZE - 1, 0, Need(bufo.item, pg);
      AddrEmpty(pg);
      assert need == Need(b, pg) by { NeedIgnoresGpa(b, bufo.item.gpa, pg); }
      while bufo != curr
        invariant ret <= i && curr == l.NodeAt(ret) && curr != null
        invariant bufo.item == b.(gpa := InWindow(b.hva))
        invariant lo == AddrLo(s[..ret], pg) && hi == AddrHi(s[..ret], pg)
        decreases i - ret
      {
        assert curr.item == s[ret];
        AddrStep(s, ret, pg);
        var start, end := Start(curr.item, pg), End(curr.item, pg);
        lo := if start < lo then start else lo;
        hi := if end > hi then end else hi;
        curr := curr.next;
        ret := ret + 1;
      }
      if bufo.item.gpa + need < lo || bufo.item.gpa >= hi {
        return;
      }
      bufo.item := bufo.item.(gpa := 0);
      if lo > need {
        bufo.item := bufo.item.(gpa := lo - need);
      }
      if bufo.item.gpa == 0 && hi + need < MBUFO_SIZE {
        bufo.item := bufo.item.(gpa := hi);
      }
    }
  }

  lemma NeedIgnoresGpa(b: Bufo, gpa: nat, pg: Page)
    ensures Need(b.(gpa := gpa), pg) == Need(b, pg)
  {
  }

  lemma AddrEmpty(pg: Page)
    ensures AddrLo([], pg) == MBUFO_SIZE - 1 && AddrHi([], pg) == 0
  {
  }

  lemma AddrStep(s: seq<Bufo>, k: nat, pg: Page)
    requires k < |s|
    ensures AddrLo(s[..k + 1], pg) == (if Start(s[k], pg) < AddrLo(s[..k], pg) then Start(s[k], pg)
        else AddrLo(s[..k], pg))
    ensures AddrHi(s[..k + 1], pg) == (if End(s[k], pg) > AddrHi(s[..k], pg) then End(s[k], pg) else AddrHi(s[..k], pg))
  {
    assert s[..k + 1][..k] == s[..k] && s[..k + 1][k] == s[k];
  }

  // ---------- ranges stay apart ----------

  ghost predicate Apart(a: Bufo, b: Bufo, pg: Page) {
    End(a, pg) <= Start(b, pg) || End(b, pg) <= Start(a, pg)
  }

  ghost predicate AllApart(s: seq<Bufo>, pg: Page) {
    forall i, j :: 0 <= i < j < |s| ==> Apart(s[i], s[j], pg)
  }

  // The 32-bit sums over the mapping do not wrap.
  predicate Sized(b: Bufo, pg: Page) {
    b.mapsz + 16 + pg <= UINT32
  }

  lemma AddrBounds(s: seq<Bufo>, k: nat, pg: Page)
    requires k < |s|
    ensures AddrLo(s, pg) <= Start(s[k], pg) && End(s[k], pg) <= AddrHi(s, pg)
  {
    hide Start, End;
    if k == |s| - 1 {
    } else {
      AddrBounds(s[..|s| - 1], k, pg);
    }
  }

  // The highest end is the end of some record.
  lemma AddrHiFloor(s: seq<Bufo>, pg: Page)
    ensures exists x: nat :: Floor(x, pg) == AddrHi(s, pg)
    ensures AddrLo(s, pg) < MBUFO_SIZE
  {
    hide Floor, Extent;
    if s == [] {
      FloorZero(pg);
    } else {
      AddrHiFloor(s[..|s| - 1], pg);
    }
  }

  lemma FloorZero(pg: Page)
    ensures Floor(0, pg) == 0
  {
    TimesAdd(0, 0, pg);
    SplitUnique(0, 0, 0, pg);
  }

  lemma NeedCovers(b: Bufo, pg: Page)
    requires Sized(b, pg)
    ensures Extent(b, pg) == b.mapsz + Offset(b, pg) <= Need(b, pg) == AlignBo(b.mapsz) + Offset(b, pg)
  {
    hide Offset, AlignBo;
    AlignBoBounds(b.mapsz);
  }

  // A placement that found room is apart from every record before it, and one that a
  // fallback chose also fits in the window.
  lemma PlacedApart(s: seq<Bufo>, b: Bufo, pg: Page, k: nat)
    requires Sized(b, pg) && k < |s|
    requires Choice(s, b, pg) != Exhausted
    ensures Apart(s[k], Placed(s, b, pg), pg)
  {
    var p := Placed(s, b, pg);
    AddrBounds(s, k, pg);
    NeedCovers(b, pg);
    AddrHiFloor(s, pg);
    assert Extent(p, pg) == Extent(b, pg);
    hide AddrLo, AddrHi, Need, Extent, Offset, Floor;
    if p.gpa >= AddrHi(s, pg) {
      ApartAbove(s[k], p, pg, AddrHi(s, pg));
    } else {
      assert p.gpa + Extent(p, pg) <= AddrLo(s, pg);
      EndWithin(p, pg);
    }
  }

  lemma ApartAbove(a: Bufo, b: Bufo, pg: Page, hi: nat)
    requires End(a, pg) <= hi <= b.gpa && exists x: nat :: Floor(x, pg) == hi
    ensures Apart(a, b, pg)
  {
    hide End, Floor;
    var x: nat :| Floor(x, pg) == hi;
    FloorBelow(x, b.gpa, pg);
  }

  lemma EndWithin(b: Bufo, pg: Page)
    ensures End(b, pg) <= b.gpa + Extent(b, pg)
  {
    hide Extent;
  }

  lemma FallbackFits(s: seq<Bufo>, b: Bufo, pg: Page)
    requires Sized(b, pg)
    requires Choice(s, b, pg).Below? || Choice(s, b, pg).Above?
    ensures Gpa(s, b, pg) + b.mapsz + Offset(b, pg) <= Gpa(s, b, pg) + Need(b, pg) < MBUFO_SIZE
  {
    NeedCovers(b, pg);
    AddrHiFloor(s, pg);
  }

  // The records whose range ends past page 0, in order.
  function Reaching(s: seq<Bufo>, pg: Page): seq<Bufo> {
    if s == [] then []
    else Reaching(s[..|s| - 1], pg) + if End(s[|s| - 1], pg) > 0 then [s[|s| - 1]] else []
  }

  lemma {:induction false} ReachingMembers(s: seq<Bufo>, pg: Page)
    ensures forall b :: b in Reaching(s, pg) <==> b in s && End(b, pg) > 0
  {
    hide End;
    if s == [] {
    } else {
      ReachingMembers(s[..|s| - 1], pg);
      assert s == s[..|s| - 1] + [s[|s| - 1]];
    }
  }

  // Every record is placed in the window.
  ghost predicate AllInWindow(s: seq<Bufo>) {
    forall b :: b in s ==> b.gpa < MBUFO_SIZE
  }

  lemma {:induction false} AddrLoExact(s: seq<Bufo>, x: nat, pg: Page)
    requires AllInWindow(s) && x < MBUFO_SIZE
    ensures x <= AddrLo(s, pg) <==> forall b :: b in s ==> x <= Start(b, pg)
  {
    hide Start;
    if s == [] {
    } else {
      AddrLoExact(s[..|s| - 1], x, pg);
      assert s == s[..|s| - 1] + [s[|s| - 1]];
    }
  }

  lemma {:induction false} AddrHiReached(s: seq<Bufo>, pg: Page)
    requires AddrHi(s, pg) > 0
    ensures exists b :: b in s && End(b, pg) > 0
  {
    hide End;
    if AddrHi(s[..|s| - 1], pg) > 0 {
      AddrHiReached(s[..|s| - 1], pg);
      assert s == s[..|s| - 1] + [s[|s| - 1]];
    } else {
      assert s[|s| - 1] in s;
    }
  }

  // With both fallbacks spent the record is put at 0 whatever is there: it is then apart
  // from the others exactly when it ends at or below the lowest that reaches past page 0.
  lemma ExhaustedExact(s: seq<Bufo>, b: Bufo, pg: Page)
    requires Sized(b, pg) && Choice(s, b, pg) == Exhausted && AllInWindow(s)
    ensures (forall k :: 0 <= k < |s| ==> Apart(s[k], Placed(s, b, pg), pg))
       <==> Floor(b.mapsz + Offset(b, pg), pg) <= AddrLo(Reaching(s, pg), pg)
  {
    hide Offset, Floor, AlignBo, AddrLo, AddrHi, Reaching, Need;
    var p, t, x := Placed(s, b, pg), Reaching(s, pg), Floor(b.mapsz + Offset(b, pg), pg);
    assert p.gpa == 0 && AddrHi(s, pg) > 0;
    ExhaustedSpan(s, b, pg);
    hide Choice, Start, End, Extent, Placed, Gpa;
    ReachingMembers(s, pg);
    AddrHiReached(s, pg);
    LowestReaching(t, x, pg);
    ApartFromZero(s, p, t, pg);
  }

  // A record at 0 is apart from the others exactly when those past page 0 begin after it.
  lemma ApartFromZero(s: seq<Bufo>, p: Bufo, t: seq<Bufo>, pg: Page)
    requires Start(p, pg) == 0 && forall b :: b in t <==> b in s && End(b, pg) > 0
    ensures (forall k :: 0 <= k < |s| ==> Apart(s[k], p, pg)) <==> (forall b :: b in t ==> End(p, pg) <= Start(b, pg))
  {
    hide Start, End;
    if forall b :: b in t ==> End(p, pg) <= Start(b, pg) {
      forall k | 0 <= k < |s| ensures Apart(s[k], p, pg) {
        assert s[k] in s;
      }
    } else {
      var c :| c in t && Start(c, pg) < End(p, pg);
      var k :| 0 <= k < |s| && s[k] == c;
      assert !Apart(s[k], p, pg);
    }
  }

  lemma ExhaustedSpan(s: seq<Bufo>, b: Bufo, pg: Page)
    requires Sized(b, pg) && Choice(s, b, pg) == Exhausted
    ensures var p := Placed(s, b, pg); Start(p, pg) == 0 && End(p, pg) == Floor(b.mapsz + Offset(b, pg), pg)
  {
    hide Floor, AlignBo, AddrLo, AddrHi, Rem;
    NeedCovers(b, pg);
    FloorZero(pg);
  }

  lemma LowestReaching(t: seq<Bufo>, x: nat, pg: Page)
    requires AllInWindow(t) && t != []
    ensures x <= AddrLo(t, pg) <==> forall b :: b in t ==> x <= Start(b, pg)
  {
    AddrHiFloor(t, pg);
    assert t[0] in t && Start(t[0], pg) <= t[0].gpa;
    hide AddrLo, Start;
    if x < MBUFO_SIZE {
      AddrLoExact(t, x, pg);
    }
  }

  lemma PlacedInWindow(s: seq<Bufo>, b: Bufo, pg: Page)
    ensures Placed(s, b, pg).gpa < MBUFO_SIZE
  {
    AddrHiFloor(s, pg);
    hide AddrLo, AddrHi, Need;
  }

  // ---------- the address a placement gives ----------

  // The terms of the placement, written out.
  lemma PageTerms(b: Bufo, pg: Page)
    requires Sized(b, pg)
    ensures Start(b, pg) == b.gpa / pg * pg
    ensures End(b, pg) == (b.gpa + b.mapsz + b.hva % pg) / pg * pg
    ensures Need(b, pg) == (b.mapsz + 15) / 16 * 16 + b.hva % pg
  {
    NeedCovers(b, pg);
    AlignBoIs(b.mapsz);
    FloorIs(b.gpa, pg);
    FloorIs(b.gpa + b.mapsz + b.hva % pg, pg);
    hide Floor, AlignBo, Need, Extent;
  }

  lemma FloorIs(x: nat, pg: Page)
    ensures Floor(x, pg) == x / pg * pg
  {
    Split(x, pg);
  }

  lemma AlignBoIs(x: nat)
    ensures AlignBo(x) == (x + 15) / 16 * 16
  {
  }

  lemma {:induction false} LowestAbove(s: seq<Bufo>, x: nat, pg: Page)
    requires x < MBUFO_SIZE - 1 && forall b :: b in s ==> x < Start(b, pg)
    ensures x < AddrLo(s, pg)
  {
    hide Start;
    if s == [] {
    } else {
      assert s[|s| - 1] in s;
      LowestAbove(s[..|s| - 1], x, pg);
    }
  }

  lemma {:induction false} HighestBelow(s: seq<Bufo>, x: nat, pg: Page)
    requires forall b :: b in s ==> End(b, pg) <= x
    ensures AddrHi(s, pg) <= x
  {
    hide End;
    if s == [] {
    } else {
      assert s[|s| - 1] in s;
      HighestBelow(s[..|s| - 1], x, pg);
    }
  }

  // The listed ranges are all above, or all below, the n bytes from own on.
  ghost predicate Free(s: seq<Bufo>, own: nat, n: nat, pg: Page) {
    || (own + n < 0x7ff_ffff && forall x :: x in s ==> own + n < x.gpa / pg * pg)
    || (forall x :: x in s ==> (x.gpa + x.mapsz + x.hva % pg) / pg * pg <= own)
  }

  // A buffer whose own place, its host address in the window, is free goes there.
  lemma OwnPlace(s: seq<Bufo>, b: Bufo, pg: Page, q: nat, own: nat)
    requires Sized(b, pg) && forall x :: x in s ==> Sized(x, pg)
    requires b.hva == q * 0x800_0000 + own && own < 0x800_0000
    requires Free(s, own, (b.mapsz + 15) / 16 * 16 + b.hva % pg, pg)
    ensures Placed(s, b, pg).gpa == own
    ensures 0x800_0000 % pg == 0 ==> own % pg == b.hva % pg
  {
    PageTerms(b, pg);
    FreeIs(s, own, Need(b, pg), pg);
    WindowIs(b.hva, q, own);
    WindowPages(b.hva, q, own, pg);
    hide Free, Need, InWindow, Placed, Start, End;
    OwnChoice(s, b, pg);
    hide Choice;
    assert Placed(s, b, pg).gpa == Gpa(s, b, pg) by { PlacedGpa(s, b, pg); }
  }

  lemma PlacedGpa(s: seq<Bufo>, b: Bufo, pg: Page)
    ensures Placed(s, b, pg).gpa == Gpa(s, b, pg)
  {
    hide Gpa;
  }

  lemma FreeIs(s: seq<Bufo>, own: nat, n: nat, pg: Page)
    requires Free(s, own, n, pg) && forall x :: x in s ==> Sized(x, pg)
    ensures || (own + n < MBUFO_SIZE - 1 && forall x :: x in s ==> own + n < Start(x, pg))
            || (forall x :: x in s ==> End(x, pg) <= own)
  {
    forall x | x in s ensures Start(x, pg) == x.gpa / pg * pg
      ensures End(x, pg) == (x.gpa + x.mapsz + x.hva % pg) / pg * pg
    {
      PageTerms(x, pg);
    }
    hide Start, End, Sized;
  }

  lemma WindowIs(hva: nat, q: nat, own: nat)
    requires hva == q * 0x800_0000 + own && own < 0x800_0000
    ensures InWindow(hva) == own
  {
  }

  lemma OwnChoice(s: seq<Bufo>, b: Bufo, pg: Page)
    requires var own, n := InWindow(b.hva), Need(b, pg);
             || (own + n < MBUFO_SIZE - 1 && forall x :: x in s ==> own + n < Start(x, pg))
             || (forall x :: x in s ==> End(x, pg) <= own)
    ensures Choice(s, b, pg) == Own
  {
    hide Start, End, Need, AddrLo, AddrHi, InWindow;
    var own, n := InWindow(b.hva), Need(b, pg);
    if own + n < MBUFO_SIZE - 1 && forall x :: x in s ==> own + n < Start(x, pg) {
      LowestAbove(s, own + n, pg);
    } else {
      HighestBelow(s, own, pg);
    }
  }

  lemma WindowPages(hva: nat, q: nat, own: nat, pg: Page)
    requires hva == q * 0x800_0000 + own
    ensures 0x800_0000 % pg == 0 ==> own % pg == hva % pg
  {
    if 0x800_0000 % pg == 0 {
      var k, a := Pages(0x800_0000, pg), Pages(own, pg);
      Split(0x800_0000, pg);
      Split(own, pg);
      TimesTimes(q, k, pg);
      TimesAdd(q * k, a, pg);
      SplitUnique(hva, q * k + a, Rem(own, pg), pg);
    }
  }

  lemma TimesTimes(q: nat, k: nat, pg: Page)
    ensures 0 <= q * k && Times(q * k, pg) == q * Times(k, pg)
  {
  }

  // x is the least, or the greatest, page floor among the listed starts and ends.
  ghost predicate LeastStart(s: seq<Bufo>, x: nat, pg: Page) {
    (exists b :: b in s && x == b.gpa / pg * pg) && forall b :: b in s ==> x <= b.gpa / pg * pg
  }

  ghost predicate GreatestEnd(s: seq<Bufo>, x: nat, pg: Page) {
    && (exists b :: b in s && x == (b.gpa + b.mapsz + b.hva % pg) / pg * pg)
    && forall b :: b in s ==> (b.gpa + b.mapsz + b.hva % pg) / pg * pg <= x
  }

  lemma LowestIs(s: seq<Bufo>, x: nat, pg: Page)
    requires AllInWindow(s) && (forall b :: b in s ==> Sized(b, pg)) && LeastStart(s, x, pg)
    ensures AddrLo(s, pg) == x
  {
    forall b | b in s ensures Start(b, pg) == b.gpa / pg * pg {
      PageTerms(b, pg);
    }
    hide Start, Sized;
    var b :| b in s && x == Start(b, pg);
    var k :| 0 <= k < |s| && s[k] == b;
    AddrBounds(s, k, pg);
    assert x < MBUFO_SIZE by { StartBelow(b, pg); }
    AddrLoExact(s, x, pg);
  }

  lemma StartBelow(b: Bufo, pg: Page)
    ensures Start(b, pg) <= b.gpa
  {
  }

  lemma HighestIs(s: seq<Bufo>, x: nat, pg: Page)
    requires (forall b :: b in s ==> Sized(b, pg)) && GreatestEnd(s, x, pg)
    ensures AddrHi(s, pg) == x
  {
    forall b | b in s ensures End(b, pg) == (b.gpa + b.mapsz + b.hva % pg) / pg * pg {
      PageTerms(b, pg);
    }
    hide End, Sized;
    var b :| b in s && x == End(b, pg);
    var k :| 0 <= k < |s| && s[k] == b;
    AddrBounds(s, k, pg);
    HighestBelow(s, x, pg);
  }

  // Where its own place is not free a buffer goes below all the others if there is room for
  // it, else above them all if there is, else to 0.
  lemma FallbackPlace(s: seq<Bufo>, b: Bufo, pg: Page, lo: nat, hi: nat)
    requires AllInWindow(s) && Sized(b, pg) && forall x :: x in s ==> Sized(x, pg)
    requires LeastStart(s, lo, pg) && GreatestEnd(s, hi, pg)
    requires lo <= b.hva % 0x800_0000 + (b.mapsz + 15) / 16 * 16 + b.hva % pg && b.hva % 0x800_0000 < hi
    ensures var need := (b.mapsz + 15) / 16 * 16 + b.hva % pg;
            Placed(s, b, pg).gpa == if lo > need then lo - need else if hi + need < 0x800_0000 then hi else 0
  {
    PageTerms(b, pg);
    LowestIs(s, lo, pg);
    HighestIs(s, hi, pg);
    assert s != [];
    assert InWindow(b.hva) == b.hva % 0x800_0000;
    hide LeastStart, GreatestEnd, AddrLo, AddrHi, Need, Sized, InWindow;
  }

  // The hypervisor maps the page of gpa to the page of the host address: the guest's pointer
  // reaches the buffer's first byte.
  predicate Reaches(b: Bufo, pg: Page) {
    b.hva / pg * pg + b.gpa % pg == b.hva
  }

  lemma ReachesOffset(b: Bufo, pg: Page)
    ensures Reaches(b, pg) <==> Rem(b.gpa, pg) == Rem(b.hva, pg)
  {
    Split(b.hva, pg);
  }

  lemma AddrLoPage(s: seq<Bufo>, pg: Page)
    requires s != [] && AllInWindow(s)
    ensures exists x: nat :: Floor(x, pg) == AddrLo(s, pg)
  {
    hide Floor;
    var n := |s| - 1;
    if n == 0 {
      assert s[0] in s && AddrLo(s[..0], pg) == MBUFO_SIZE - 1;
      assert AddrLo(s, pg) == Floor(s[0].gpa, pg);
    } else {
      AddrLoPage(s[..n], pg);
    }
  }

  lemma FloorRem(x: nat, pg: Page)
    ensures Rem(Floor(x, pg), pg) == 0
  {
    Split(x, pg);
    SplitUnique(Floor(x, pg), Pages(x, pg), 0, pg);
  }

  // Below a page boundary the offset is off when room and offset together are whole pages.
  lemma BelowBoundary(lo: nat, need: nat, off: nat, pg: Page)
    requires Rem(lo, pg) == 0 && need <= lo && off < pg
    ensures Rem(lo - need, pg) == off <==> Rem(need + off, pg) == 0
  {
    hide Times, Pages, Rem;
    Split(lo, pg);
    Split(lo - need, pg);
    Split(need + off, pg);
    var k, a, c := Pages(lo, pg), Pages(lo - need, pg), Pages(need + off, pg);
    if Rem(lo - need, pg) == off {
      if k < a {
        TimesMonotone(k, a, pg);
      } else {
        TimesAdd(a, k - a, pg);
        SplitUnique(need + off, k - a, 0, pg);
      }
    }
    if Rem(need + off, pg) == 0 {
      if k < c {
        TimesAdd(k, 1, pg);
        TimesMonotone(k + 1, c, pg);
      } else {
        TimesAdd(c, k - c, pg);
        SplitUnique(lo - need, k - c, off, pg);
      }
    }
  }

  // In its own place a buffer is always reached; at a fallback address exactly when the offsets
  // in the page happen to meet.
  lemma ReachesExact(s: seq<Bufo>, b: Bufo, pg: Page)
    requires Sized(b, pg) && AllInWindow(s) && 0x800_0000 % pg == 0
    ensures Reaches(Placed(s, b, pg), pg) <==>
            match Choice(s, b, pg)
            case Own => true
            case Below => ((b.mapsz + 15) / 16 * 16 + 2 * (b.hva % pg)) % pg == 0
            case Above => b.hva % pg == 0
            case Exhausted => b.hva % pg == 0
  {
    var p, off := Placed(s, b, pg), b.hva % pg;
    ReachesOffset(p, pg);
    PageTerms(b, pg);
    hide AddrLo, AddrHi, Floor, Need, Reaches;
    match Choice(s, b, pg)
    case Own =>
      WindowPages(b.hva, b.hva / 0x800_0000, InWindow(b.hva), pg);
    case Below =>
      AddrLoPage(s, pg);
      var x: nat :| Floor(x, pg) == AddrLo(s, pg);
      FloorRem(x, pg);
      BelowBoundary(AddrLo(s, pg), Need(b, pg), off, pg);
    case Above =>
      AddrHiFloor(s, pg);
      var x: nat :| Floor(x, pg) == AddrHi(s, pg);
      FloorRem(x, pg);
    case Exhausted =>
      FloorZero(pg);
      FloorRem(0, pg);
  }

  // ---------- runs ----------

  datatype Op = Map(idx: int, hva: nat, mapsz: nat) | Unmap(idx: int)

  function Fresh(op: Op): Bufo
    requires op.Map?
  {
    Zeroed(op.idx).(hva := op.hva, mapsz := op.mapsz)
  }

  function Step(s: seq<Bufo>, op: Op, pg: Page): seq<Bufo> {
    match op
    case Map(_, _, _) => s + [Placed(s, Fresh(op), pg)]
    case Unmap(idx) => Freed(s, idx)
  }

  function Run(s: seq<Bufo>, ops: seq<Op>, pg: Page): seq<Bufo>
    decreases |ops|
  {
    if ops == [] then s else Run(Step(s, ops[0], pg), ops[1..], pg)
  }

  // Each map is of an index that is not listed and finds room.
  ghost predicate Roomy(s: seq<Bufo>, ops: seq<Op>, pg: Page)
    decreases |ops|
  {
    ops != [] ==>
      && (ops[0].Map? ==>
            && !Has(s, ops[0].idx)
            && Sized(Fresh(ops[0]), pg) && Choice(s, Fresh(ops[0]), pg) != Exhausted)
      && Roomy(Step(s, ops[0], pg), ops[1..], pg)
  }

  lemma StepApart(s: seq<Bufo>, op: Op, pg: Page)
    requires AllApart(s, pg)
    requires op.Map? ==> Sized(Fresh(op), pg) && Choice(s, Fresh(op), pg) != Exhausted
    ensures AllApart(Step(s, op, pg), pg)
  {
    hide Choice, Apart, Without;
    if op.Map? {
      forall k | 0 <= k < |s| ensures Apart(s[k], Placed(s, Fresh(op), pg), pg) {
        PlacedApart(s, Fresh(op), pg, k);
      }
    }
  }

  // Over every run the listed ranges stay apart and the indices unique.
  lemma {:induction false} RunApart(s: seq<Bufo>, ops: seq<Op>, pg: Page)
    requires AllApart(s, pg) && UniqueIdx(s) && Roomy(s, ops, pg)
    ensures AllApart(Run(s, ops, pg), pg) && UniqueIdx(Run(s, ops, pg))
    decreases |ops|
  {
    hide Apart, Choice, Placed;
    if ops == [] {
    } else {
      StepApart(s, ops[0], pg);
      StepUnique(s, ops[0], pg);
      RunApart(Step(s, ops[0], pg), ops[1..], pg);
    }
  }

  lemma {:induction false} RunSized(s: seq<Bufo>, ops: seq<Op>, pg: Page)
    requires Roomy(s, ops, pg) && forall b :: b in s ==> Sized(b, pg)
    ensures forall b :: b in Run(s, ops, pg) ==> Sized(b, pg)
    decreases |ops|
  {
    hide Choice, Freed, Gpa;
    if ops == [] {
    } else {
      if ops[0].Unmap? {
        FreedMembers(s, ops[0].idx);
      }
      RunSized(Step(s, ops[0], pg), ops[1..], pg);
    }
  }

  // Apart in addresses: one range, from the page of gpa to the page floor of where the bytes end
  // with what the host address leaves of a page, ends before the other.
  predicate PagesApart(a: Bufo, b: Bufo, pg: Page) {
    || (a.gpa + a.mapsz + a.hva % pg) / pg * pg <= b.gpa / pg * pg
    || (b.gpa + b.mapsz + b.hva % pg) / pg * pg <= a.gpa / pg * pg
  }

  lemma ApartIs(a: Bufo, b: Bufo, pg: Page)
    requires Sized(a, pg) && Sized(b, pg)
    ensures Apart(a, b, pg) <==> PagesApart(a, b, pg)
  {
    PageTerms(a, pg);
    PageTerms(b, pg);
    hide Start, End, Sized;
  }

  // Over every run from an empty list.
  lemma RunApartPages(ops: seq<Op>, pg: Page)
    requires Roomy([], ops, pg)
    ensures var r := Run([], ops, pg); forall i, j :: 0 <= i < j < |r| ==> PagesApart(r[i], r[j], pg)
  {
    RunApart([], ops, pg);
    RunSized([], ops, pg);
    var r := Run([], ops, pg);
    hide Run, Roomy, Sized, Apart, PagesApart;
    forall i, j | 0 <= i < j < |r| ensures PagesApart(r[i], r[j], pg) {
      ApartIs(r[i], r[j], pg);
    }
  }

  // Every record of a run is in the window.
  lemma {:induction false} RunInWindow(s: seq<Bufo>, ops: seq<Op>, pg: Page)
    requires AllInWindow(s)
    ensures AllInWindow(Run(s, ops, pg))
    decreases |ops|
  {
    hide Freed, Placed;
    if ops == [] {
    } else {
      if ops[0].Map? {
        PlacedInWindow(s, Fresh(ops[0]), pg);
      } else {
        FreedMembers(s, ops[0].idx);
      }
      RunInWindow(Step(s, ops[0], pg), ops[1..], pg);
    }
  }

  // Over every run of buffers that begin on a page and take whole pages, the guest's pointers
  // all reach their buffers.
  lemma {:induction false} RunReaches(s: seq<Bufo>, ops: seq<Op>, pg: Page)
    requires 0x800_0000 % pg == 0 && AllInWindow(s) && forall b :: b in s ==> Reaches(b, pg)
    requires forall op :: op in ops && op.Map? ==>
               op.hva % pg == 0 && (op.mapsz + 15) / 16 * 16 % pg == 0 && Sized(Fresh(op), pg)
    ensures forall b :: b in Run(s, ops, pg) ==> Reaches(b, pg)
    decreases |ops|
  {
    hide Freed, Placed, Reaches, Choice, Sized;
    if ops == [] {
    } else {
      assert ops[0] in ops && forall op :: op in ops[1..] ==> op in ops;
      if ops[0].Map? {
        PlacedInWindow(s, Fresh(ops[0]), pg);
        ReachesExact(s, Fresh(ops[0]), pg);
      } else {
        FreedMembers(s, ops[0].idx);
      }
      RunReaches(Step(s, ops[0], pg), ops[1..], pg);
    }
  }

  lemma StepUnique(s: seq<Bufo>, op: Op, pg: Page)
    requires UniqueIdx(s) && (op.Map? ==> !Has(s, op.idx))
    ensures UniqueIdx(Step(s, op, pg))
  {
    hide Choice;
    if op.Map? {
      assert Placed(s, Fresh(op), pg).idx == op.idx;
    } else {
      FreedRefinesMap(s, op.idx);
    }
  }

  // ---------- the pages really mapped ----------

  // The hypervisor maps whole pages: from the floored address, the extent rounded up.
  function MappedEnd(b: Bufo, pg: Page): nat {
    Start(b, pg) + Ceil(b.mapsz + Offset(b, pg), pg)
  }

  ghost predicate MappedApart(a: Bufo, b: Bufo, pg: Page) {
    MappedEnd(a, pg) <= Start(b, pg) || MappedEnd(b, pg) <= Start(a, pg)
  }

  // The last page counts in the floored range.
  predicate Covered(b: Bufo, pg: Page) {
    var over := Rem(b.mapsz + Offset(b, pg), pg);
    over == 0 || Rem(b.gpa, pg) + over >= pg
  }

  lemma FloorSum(x: nat, y: nat, pg: Page)
    ensures Floor(x + y, pg) == Floor(x, pg) + Floor(y, pg) + if Rem(x, pg) + Rem(y, pg) >= pg then pg else 0
  {
    hide Times, Pages, Rem;
    var a, b, r := Pages(x, pg), Pages(y, pg), Rem(x, pg) + Rem(y, pg);
    Split(x, pg);
    Split(y, pg);
    TimesAdd(a, b, pg);
    TimesAdd(a + b, 1, pg);
    if r < pg {
      SplitUnique(x + y, a + b, r, pg);
    } else {
      SplitUnique(x + y, a + b + 1, r - pg, pg);
    }
  }

  // The mapped pages end where the floored range ends exactly for covered records;
  // otherwise they reach one page further.
  lemma MappedExact(b: Bufo, pg: Page)
    requires Sized(b, pg)
    ensures MappedEnd(b, pg) == End(b, pg) <==> Covered(b, pg)
    ensures !Covered(b, pg) ==> MappedEnd(b, pg) == End(b, pg) + pg
  {
    NeedCovers(b, pg);
    FloorSum(b.gpa, b.mapsz + Offset(b, pg), pg);
  }

  lemma FloorGap(x: nat, y: nat, pg: Page)
    requires Floor(x, pg) < Floor(y, pg)
    ensures Floor(x, pg) + pg <= Floor(y, pg)
  {
    hide Times, Pages, Rem;
    Split(x, pg);
    Split(y, pg);
    TimesAdd(Pages(x, pg), 1, pg);
    if Pages(x, pg) < Pages(y, pg) {
      TimesMonotone(Pages(x, pg) + 1, Pages(y, pg), pg);
    } else {
      TimesMonotone(Pages(y, pg), Pages(x, pg), pg);
    }
  }

  // Two buffers with floored ranges apart share no mapped page exactly when the lower one is
  // covered, or a page is free between them, or the upper one has no bytes and both start on
  // the same page.
  lemma MappedApartExact(a: Bufo, b: Bufo, pg: Page)
    requires Sized(a, pg) && End(a, pg) <= Start(b, pg)
    ensures MappedApart(a, b, pg) <==>
            || Covered(a, pg) || End(a, pg) < Start(b, pg)
            || (b.mapsz + Offset(b, pg) == 0 && Start(a, pg) == Start(b, pg))
  {
    MappedExact(a, pg);
    if End(a, pg) < Start(b, pg) {
      FloorGap(a.gpa + Extent(a, pg), b.gpa, pg);
    }
    FloorMonotone(a.gpa, a.gpa + Extent(a, pg), pg);
    CeilZero(b.mapsz + Offset(b, pg), pg);
    hide Covered, Extent, Floor, Ceil, Offset;
  }

  lemma CeilZero(x: nat, pg: Page)
    ensures x <= Ceil(x, pg) && (Ceil(x, pg) == 0 <==> x == 0)
  {
    Split(x, pg);
    hide Times, Pages, Rem;
  }

  // A buffer that takes whole pages from the start of one: this can be seen before it is placed.
  predicate Whole(b: Bufo, pg: Page) {
    Sized(b, pg) && Rem(b.mapsz + Offset(b, pg), pg) == 0
  }

  ghost predicate AllWhole(s: seq<Bufo>, pg: Page) {
    forall b :: b in s ==> Whole(b, pg)
  }

  lemma {:induction false} RunWhole(s: seq<Bufo>, ops: seq<Op>, pg: Page)
    requires AllWhole(s, pg) && UniqueIdx(s) && Roomy(s, ops, pg)
    requires forall op :: op in ops && op.Map? ==> Whole(Fresh(op), pg)
    ensures AllWhole(Run(s, ops, pg), pg)
    decreases |ops|
  {
    hide Whole, Choice, Freed;
    if ops == [] {
    } else {
      var op, t := ops[0], Step(s, ops[0], pg);
      StepUnique(s, op, pg);
      forall b | b in t ensures Whole(b, pg) {
        if op.Map? {
          if b !in s {
            assert op in ops && b == Placed(s, Fresh(op), pg);
            WholePlaced(s, Fresh(op), pg);
          }
        } else {
          FreedMembers(s, op.idx);
        }
      }
      assert forall x :: x in ops[1..] ==> x in ops;
      RunWhole(t, ops[1..], pg);
    }
  }

  lemma WholePlaced(s: seq<Bufo>, b: Bufo, pg: Page)
    requires Whole(b, pg)
    ensures Whole(Placed(s, b, pg), pg)
  {
    hide Choice, Gpa;
  }

  lemma FreedMembers(s: seq<Bufo>, idx: int)
    ensures forall b :: b in Freed(s, idx) ==> b in s
  {
    hide IndexOf;
  }

  // Over every run that finds room, buffers of whole pages share none with another.
  lemma RunMappedApart(s: seq<Bufo>, ops: seq<Op>, pg: Page)
    requires AllApart(s, pg) && UniqueIdx(s) && Roomy(s, ops, pg)
    requires AllWhole(s, pg) && forall op :: op in ops && op.Map? ==> Whole(Fresh(op), pg)
    ensures var r := Run(s, ops, pg); forall i, j :: 0 <= i < j < |r| ==> MappedApart(r[i], r[j], pg)
  {
    RunApart(s, ops, pg);
    RunWhole(s, ops, pg);
    var r := Run(s, ops, pg);
    hide Run, Roomy, Sized, Start, End, MappedEnd, Rem, Offset;
    forall i, j | 0 <= i < j < |r| ensures MappedApart(r[i], r[j], pg) {
      assert Apart(r[i], r[j], pg) && Whole(r[i], pg) && Whole(r[j], pg);
      if End(r[i], pg) <= Start(r[j], pg) {
        MappedApartExact(r[i], r[j], pg);
      } else {
        MappedApartExact(r[j], r[i], pg);
      }
    }
  }

  // ---------- examples ----------

  function Buffer(idx: int, hva: nat, gpa: nat, mapsz: nat, lvl: nat): Bufo {
    Zeroed(idx).(hva := hva, gpa := gpa, mapsz := mapsz, lvl := lvl)
  }

  lemma RunTwo(m1: Op, m2: Op, a: Bufo, b: Bufo, pg: Page)
    requires m1.Map? && m2.Map? && m1.idx != m2.idx
    requires a == Placed([], Fresh(m1), pg) && b == Placed([a], Fresh(m2), pg)
    requires Sized(Fresh(m1), pg) && Sized(Fresh(m2), pg) && Choice([a], Fresh(m2), pg) != Exhausted
    ensures Run([], [m1, m2], pg) == [a, b] && Roomy([], [m1, m2], pg)
  {
    hide Sized;
    assert Choice([], Fresh(m1), pg) == Own;
    assert a.idx == m1.idx;
    hide Choice, Placed;
    assert Step([], m1, pg) == [a] && Step([a], m2, pg) == [a, b];
    assert [m1, m2][1..] == [m2] && [m2][1..] == [];
    assert Run([a, b], [], pg) == [a, b] && Run([a], [m2], pg) == [a, b];
    assert Roomy([a, b], [], pg) && Roomy([a], [m2], pg);
  }

  lemma AddrOne(a: Bufo, pg: Page)
    requires a.gpa < MBUFO_SIZE - 1
    ensures AddrLo([a], pg) == Start(a, pg) && AddrHi([a], pg) == End(a, pg)
  {
    assert [a][..1] == [a] && [a][..0] == [];
    AddrEmpty(pg);
    AddrStep([a], 0, pg);
  }

  lemma FourK(x: nat, q: nat, r: nat)
    requires r < 0x1000 && x == q * 0x1000 + r
    ensures Floor(x, 0x1000) == q * 0x1000
    ensures Ceil(x, 0x1000) == (if r == 0 then q else q + 1) * 0x1000
  {
    SplitUnique(x, q, r, 0x1000);
  }

  lemma OffsetIs(b: Bufo, q: nat)
    requires b.hva == q * 0x1000
    ensures Offset(b, 0x1000) == 0
  {
    SplitUnique(b.hva, q, 0, 0x1000);
  }

  lemma AlignBoOf(x: nat, k: nat)
    requires x == 16 * k
    ensures AlignBo(x) == x
  {
  }

  // A record of whole 4 KB pages but for half a page at most: its range and mapped pages.
  lemma BufferSpan(b: Bufo, at: nat, first: nat, pages: nat, half: bool)
    requires b.hva == at * 0x1000 && b.gpa == first * 0x1000 && pages < 0x1_0000
    requires b.mapsz == pages * 0x1000 + (if half then 0x800 else 0)
    ensures Need(b, 0x1000) == b.mapsz && Sized(b, 0x1000)
    ensures Start(b, 0x1000) == b.gpa && End(b, 0x1000) == (first + pages) * 0x1000
    ensures MappedEnd(b, 0x1000) == (first + pages + if half then 1 else 0) * 0x1000
  {
    hide Offset, Floor, Ceil, Need, Extent, AlignBo;
    OffsetIs(b, at);
    NeedCovers(b, 0x1000);
    AlignBoOf(b.mapsz, pages * 0x100 + if half then 0x80 else 0);
    FourK(b.gpa, first, 0);
    FourK(b.gpa + b.mapsz, first + pages, if half then 0x800 else 0);
    FourK(b.mapsz, pages, if half then 0x800 else 0);
  }

  // The first buffer takes its own place; the second finds just that one before it.
  lemma PlacedTwo(a: Bufo, m: Bufo)
    requires a.gpa < MBUFO_SIZE - 1
    ensures Choice([a], m, 0x1000) ==
      if InWindow(m.hva) + Need(m, 0x1000) < Start(a, 0x1000) || InWindow(m.hva) >= End(a, 0x1000) then Own
      else if Start(a, 0x1000) > Need(m, 0x1000) then Below
      else if End(a, 0x1000) + Need(m, 0x1000) < MBUFO_SIZE then Above
      else Exhausted
  {
    AddrOne(a, 0x1000);
    hide AddrLo, AddrHi, Need, Start, End;
  }

  // Without that, a run that always finds room maps one page for two buffers: a buffer of
  // a page and a half at window offset 0, then one whose own place is its second page.
  lemma MappedPagesOverlap()
    ensures var ops := [Map(1, 0x800_0000, 0x1800), Map(2, 0x1000_1000, 0x1000)];
            && Roomy([], ops, 0x1000)
            && var r := Run([], ops, 0x1000); |r| == 2 && !MappedApart(r[0], r[1], 0x1000)
  {
    hide Run, Roomy, Need, Start, End, MappedEnd, AddrLo, AddrHi, Choice;
    var m1, m2 := Map(1, 0x800_0000, 0x1800), Map(2, 0x1000_1000, 0x1000);
    var a, b := Buffer(1, 0x800_0000, 0, 0x1800, 0), Buffer(2, 0x1000_1000, 0x1000, 0x1000, 1);
    assert Choice([], Fresh(m1), 0x1000) == Own by { OwnFirst(Fresh(m1)); }
    assert Placed([], Fresh(m1), 0x1000) == a;
    BufferSpan(a, 0x8000, 0, 1, true);
    BufferSpan(b, 0x1_0001, 1, 1, false);
    PlacedTwo(a, Fresh(m2));
    assert Placed([a], Fresh(m2), 0x1000) == b;
    RunTwo(m1, m2, a, b, 0x1000);
  }

  lemma OwnFirst(m: Bufo)
    ensures Choice([], m, 0x1000) == Own
  {
  }

  // A buffer 16 bytes into its page whose own place is taken: the guest's pointer is 16 bytes
  // below it.
  lemma PointerMisses()
    ensures var a, m := Placed([], Fresh(Map(1, 0x800_0000, 0x1000)), 0x1000), Fresh(Map(2, 0x1000_0010, 0x100));
            Placed([a], m, 0x1000).gpa == 0x1000 && !Reaches(Placed([a], m, 0x1000), 0x1000)
  {
    hide Need, Start, End, AddrLo, AddrHi, Choice;
    var a, m := Buffer(1, 0x800_0000, 0, 0x1000, 0), Fresh(Map(2, 0x1000_0010, 0x100));
    OwnFirst(Fresh(Map(1, 0x800_0000, 0x1000)));
    assert Placed([], Fresh(Map(1, 0x800_0000, 0x1000)), 0x1000) == a;
    BufferSpan(a, 0x8000, 0, 1, false);
    MissNeed(m);
    PlacedTwo(a, m);
    AddrOne(a, 0x1000);
    assert Choice([a], m, 0x1000) == Above;
    assert Placed([a], m, 0x1000).gpa == 0x1000;
  }

  lemma MissNeed(m: Bufo)
    requires m.hva == 0x1000_0010 && m.mapsz == 0x100
    ensures Need(m, 0x1000) == 0x110
  {
    PageTerms(m, 0x1000);
  }

  // And with no room left the second buffer is laid over the first.
  lemma ExhaustedOverlap()
    ensures var a := Placed([], Fresh(Map(1, 0x800_0000, 0x7ff_0000)), 0x1000);
            var m := Fresh(Map(2, 0x1000_0000, 0x10_0000));
            && Choice([a], m, 0x1000) == Exhausted && !Apart(a, Placed([a], m, 0x1000), 0x1000)
  {
    hide Need, Start, End, MappedEnd, AddrLo, AddrHi, Choice;
    var a, m := Buffer(1, 0x800_0000, 0, 0x7ff_0000, 0), Fresh(Map(2, 0x1000_0000, 0x10_0000));
    OwnFirst(Fresh(Map(1, 0x800_0000, 0x7ff_0000)));
    assert Placed([], Fresh(Map(1, 0x800_0000, 0x7ff_0000)), 0x1000) == a;
    BufferSpan(a, 0x8000, 0, 0x7ff0, false);
    BufferSpan(m, 0x1_0000, 0, 0x100, false);
    PlacedTwo(a, m);
    BufferSpan(m.(lvl := 1), 0x1_0000, 0, 0x100, false);
  }
}
