/**
 Import-table hooks: words of a page that hold the address of a time function are
 replaced, remembered in a table of eight, and put back when the hook is released.
 */
module Hook {
  import opened Words

  const MAX_HOOK_ENTRY: nat := 8

  // A patched position and the word it held.
  datatype Record = Record(patch: nat, data: Word)

  // Guest process memory as words; position 0 is the null pointer.
  type Image = seq<Word>

  // Addresses the two hooks look for (0: not found) and put in their place.
  datatype Targets = Targets(time: Word, perf: Word, hookTime: Word, hookPerf: Word)

  // The replacements are functions of the hook itself: they are neither null nor one of
  // the functions looked for, and each other's.
  predicate Proper(t: Targets) {
    && t.hookTime != 0 && t.hookPerf != 0
    && t.hookTime !in {t.time, t.perf} && t.hookPerf !in {t.time, t.perf}
    && (t.time != 0 ==> t.time != t.perf)
  }

  // ---------- the table ----------

  // HookEntryHook(patch, orig): record while there is room.
  function Recorded(tbl: seq<Record>, patch: nat, orig: Word): seq<Record> {
    if patch != 0 && orig != 0 && |tbl| < MAX_HOOK_ENTRY then tbl + [Record(patch, orig)] else tbl
  }

  // HookEntryHook(0, 0): every recorded word goes back.
  function Restored(m: Image, tbl: seq<Record>): (r: Image)
    ensures |r| == |m|
    decreases tbl
  {
    if tbl == [] then m
    else Restored(if tbl[0].patch < |m| then m[tbl[0].patch := tbl[0].data] else m, tbl[1..])
  }

  // ---------- patching ----------

  // What is still to be found in a page, and what was done so far.
  datatype Scan = Scan(m: Image, tbl: seq<Record>, time: Word, perf: Word)

  // One word of HookPatchTimer's loop.
  function ScanWord(s: Scan, p: nat, t: Targets): (r: Scan)
    requires p < |s.m|
    ensures |r.m| == |s.m|
  {
    var s1 := if s.time != 0 && s.time == s.m[p]
              then Scan(s.m[p := t.hookTime], Recorded(s.tbl, p, s.m[p]), 0, s.perf) else s;
    if s1.perf != 0 && s1.perf == s1.m[p]
    then Scan(s1.m[p := t.hookPerf], Recorded(s1.tbl, p, s1.m[p]), s1.time, 0) else s1
  }

  // The loop from word p up to word hi; it stops when both functions were found.
  function ScanPage(s: Scan, p: nat, hi: nat, t: Targets): (r: Scan)
    requires hi <= |s.m|
    ensures |r.m| == |s.m|
    decreases hi - p
  {
    if p >= hi then s
    else
      var s1 := ScanWord(s, p, t);
      if s1.time == 0 && s1.perf == 0 then s1 else ScanPage(s1, p + 1, hi, t)
  }

  // A page of words starting at a page position.
  datatype Page = Page(start: nat, words: nat)

  predicate InImage(size: nat, pg: Page) {
    pg.start + pg.words <= size
  }

  // HookPatchTimer: nothing happens for a null page.
  function Patched(m: Image, tbl: seq<Record>, pg: Page, t: Targets): (r: Scan)
    requires InImage(|m|, pg)
    ensures |r.m| == |m|
  {
    if pg.start == 0 then Scan(m, tbl, t.time, t.perf)
    else ScanPage(Scan(m, tbl, t.time, t.perf), pg.start, pg.start + pg.words, t)
  }

  function PatchAll(m: Image, tbl: seq<Record>, pages: seq<Page>, t: Targets): (r: Scan)
    requires forall pg :: pg in pages ==> InImage(|m|, pg)
    ensures |r.m| == |m|
    decreases pages
  {
    if pages == [] then Scan(m, tbl, t.time, t.perf)
    else
      var s := Patched(m, tbl, pages[0], t);
      PatchAll(s.m, s.tbl, pages[1..], t)
  }

  // ---------- counting what will be found ----------

  function Cleared(before: Word, after: Word): nat {
    if before != 0 && after == 0 then 1 else 0
  }

  // How many of the two functions a page holds.
  function PageHits(m: Image, tbl: seq<Record>, pg: Page, t: Targets): nat
    requires InImage(|m|, pg)
  {
    var r := Patched(m, tbl, pg, t);
    Cleared(t.time, r.time) + Cleared(t.perf, r.perf)
  }

  // The words hooking those pages in turn will replace.
  function Hits(m: Image, tbl: seq<Record>, pages: seq<Page>, t: Targets): nat
    requires forall pg :: pg in pages ==> InImage(|m|, pg)
    decreases pages
  {
    if pages == [] then 0
    else
      var s := Patched(m, tbl, pages[0], t);
      PageHits(m, tbl, pages[0], t) + Hits(s.m, s.tbl, pages[1..], t)
  }

  class Hooks {
    var mem: array<Word>
    var tbl: seq<Record>          // HookTbl[0..nhook]

    constructor (mem: array<Word>)
      ensures this.mem == mem && tbl == []
    {
      this.mem, tbl := mem, [];
    }

    method HookEntryHook(patch: nat, orig: Word)
      modifies this`tbl, mem
      ensures patch == 0 && orig == 0 ==> tbl == [] && mem[..] == Restored(old(mem[..]), old(tbl))
      ensures patch != 0 || orig != 0 ==> tbl == Recorded(old(tbl), patch, orig) && mem[..] == old(mem[..])
    {
      if patch != 0 && orig != 0 && |tbl| < MAX_HOOK_ENTRY {
        tbl := tbl + [Record(patch, orig)];
      }
      if patch == 0 && orig == 0 {
        for i := 0 to |tbl|
          invariant tbl == old(tbl) && Restored(mem[..], tbl[i..]) == Restored(old(mem[..]), tbl)
        {
          ghost var before := mem[..];
          if tbl[i].patch < mem.Length {
            mem[tbl[i].patch] := tbl[i].data;
          }
          assert mem[..] == if tbl[i].patch < |before| then before[tbl[i].patch := tbl[i].data] else before;
          assert tbl[i..][1..] == tbl[i + 1..];
        }
        tbl := [];
      }
    }

    method HookPatchTimer(pg: Page, t: Targets)
      requires InImage(mem.Length, pg)
      modifies this`tbl, mem
      ensures mem[..] == Patched(old(mem[..]), old(tbl), pg, t).m
      ensures tbl == Patched(old(mem[..]), old(tbl), pg, t).tbl
    {
      if pg.start != 0 {
        var hkTime, hkPerf := t.time, t.perf;
        ghost var s0 := Scan(mem[..], tbl, hkTime, hkPerf);
        var i := pg.start;
        var done := false;
        while i < pg.start + pg.words && !done
          invariant pg.start <= i && mem.Length == |s0.m|
          invariant !done ==> ScanPage(Scan(mem[..], tbl, hkTime, hkPerf), i, pg.start + pg.words, t)
                              == ScanPage(s0, pg.start, pg.start + pg.words, t)
          invariant done ==> Scan(mem[..], tbl, hkTime, hkPerf) == ScanPage(s0, pg.start, pg.start + pg.words, t)
          decreases pg.start + pg.words - i, !done
        {
          ghost var s := Scan(mem[..], tbl, hkTime, hkPerf);
          if hkTime != 0 && hkTime == mem[i] {
            HookEntryHook(i, mem[i]);
            mem[i] := t.hookTime;
            hkTime := 0;
          }
          if hkPerf != 0 && hkPerf == mem[i] {
            HookEntryHook(i, mem[i]);
            mem[i] := t.hookPerf;
            hkPerf := 0;
          }
          assert Scan(mem[..], tbl, hkTime, hkPerf) == ScanWord(s, i, t);
          if hkTime == 0 && hkPerf == 0 {
            done := true;
          } else {
            i := i + 1;
          }
        }
      }
    }
  }

  // ---------- unhook undoes hook ----------

  // Position p is in the table.
  ghost predicate IsRecorded(tbl: seq<Record>, p: nat) {
    exists i :: 0 <= i < |tbl| && tbl[i].patch == p
  }

  ghost predicate Distinct(tbl: seq<Record>) {
    forall i, j :: 0 <= i < j < |tbl| ==> tbl[i].patch != tbl[j].patch
  }

  // m is m0 with some words hooked; the table holds their old values, each once, and
  // holds them all unless it is full.
  ghost predicate Hooked(m0: Image, m: Image, tbl: seq<Record>, t: Targets) {
    && |m| == |m0| && |tbl| <= MAX_HOOK_ENTRY && Distinct(tbl)
    && (forall p :: 0 <= p < |m| && m[p] != m0[p] ==> m[p] in {t.hookTime, t.hookPerf})
    && (forall i :: 0 <= i < |tbl| ==>
          0 < tbl[i].patch < |m| && tbl[i].data == m0[tbl[i].patch] && m[tbl[i].patch] != m0[tbl[i].patch])
    && (|tbl| < MAX_HOOK_ENTRY ==> forall p :: 0 <= p < |m| && m[p] != m0[p] ==> IsRecorded(tbl, p))
  }

  lemma PatchKeeps(m0: Image, m: Image, tbl: seq<Record>, t: Targets, p: nat, orig: Word, hook: Word)
    requires Proper(t) && Hooked(m0, m, tbl, t) && 0 < p < |m| && m[p] == orig != 0
    requires orig in {t.time, t.perf} && hook in {t.hookTime, t.hookPerf}
    ensures Hooked(m0, m[p := hook], Recorded(tbl, p, orig), t)
  {
    assert m[p] == m0[p];
    assert !IsRecorded(tbl, p);
    var tbl' := Recorded(tbl, p, orig);
    forall q | 0 <= q < |m| && |tbl'| < MAX_HOOK_ENTRY && m[p := hook][q] != m0[q]
      ensures IsRecorded(tbl', q)
    {
      if q == p {
        assert tbl'[|tbl|].patch == p;
      } else {
        var i :| 0 <= i < |tbl| && tbl[i].patch == q;
        assert tbl'[i].patch == q;
      }
    }
  }

  ghost predicate Looking(s: Scan, t: Targets) {
    s.time in {0, t.time} && s.perf in {0, t.perf}
  }

  lemma ScanWordKeeps(m0: Image, s: Scan, p: nat, t: Targets)
    requires Proper(t) && Hooked(m0, s.m, s.tbl, t) && Looking(s, t) && 0 < p < |s.m|
    ensures var r := ScanWord(s, p, t); Hooked(m0, r.m, r.tbl, t) && Looking(r, t)
  {
    if s.time != 0 && s.time == s.m[p] {
      PatchKeeps(m0, s.m, s.tbl, t, p, s.time, t.hookTime);
    } else if s.perf != 0 && s.perf == s.m[p] {
      PatchKeeps(m0, s.m, s.tbl, t, p, s.perf, t.hookPerf);
    }
  }

  lemma {:induction false} ScanPageKeeps(m0: Image, s: Scan, p: nat, hi: nat, t: Targets)
    requires Proper(t) && Hooked(m0, s.m, s.tbl, t) && Looking(s, t) && 0 < p && hi <= |s.m|
    ensures var r := ScanPage(s, p, hi, t); Hooked(m0, r.m, r.tbl, t)
    decreases hi - p
  {
    if p >= hi {
    } else {
      ScanWordKeeps(m0, s, p, t);
      var s1 := ScanWord(s, p, t);
      if !(s1.time == 0 && s1.perf == 0) {
        ScanPageKeeps(m0, s1, p + 1, hi, t);
      }
    }
  }

  lemma {:induction false} PatchAllKeeps(m0: Image, m: Image, tbl: seq<Record>, pages: seq<Page>, t: Targets)
    requires Proper(t) && Hooked(m0, m, tbl, t) && forall pg :: pg in pages ==> InImage(|m|, pg)
    ensures var r := PatchAll(m, tbl, pages, t); Hooked(m0, r.m, r.tbl, t)
    decreases pages
  {
    if pages == [] {
    } else {
      assert pages[0] in pages;
      if pages[0].start != 0 {
        ScanPageKeeps(m0, Scan(m, tbl, t.time, t.perf), pages[0].start, pages[0].start + pages[0].words, t);
      }
      var s := Patched(m, tbl, pages[0], t);
      PatchAllKeeps(m0, s.m, s.tbl, pages[1..], t);
    }
  }

  // Restoring writes the recorded positions and no others.
  lemma {:induction false} RestoredAt(m: Image, tbl: seq<Record>, p: nat)
    requires Distinct(tbl) && p < |m|
    ensures forall i :: 0 <= i < |tbl| && tbl[i].patch == p ==> Restored(m, tbl)[p] == tbl[i].data
    ensures !IsRecorded(tbl, p) ==> Restored(m, tbl)[p] == m[p]
    decreases tbl
  {
    if tbl == [] {
    } else {
      var m1 := if tbl[0].patch < |m| then m[tbl[0].patch := tbl[0].data] else m;
      assert Distinct(tbl[1..]);
      RestoredAt(m1, tbl[1..], p);
      if tbl[0].patch == p {
        forall i | 0 <= i < |tbl[1..]| ensures tbl[1..][i].patch != p {
          assert tbl[1..][i] == tbl[i + 1];
        }
        assert !IsRecorded(tbl[1..], p);
      } else {
        if !IsRecorded(tbl, p) {
          forall i | 0 <= i < |tbl[1..]| ensures tbl[1..][i].patch != p {
            assert tbl[1..][i] == tbl[i + 1];
          }
          assert !IsRecorded(tbl[1..], p);
        }
        forall i | 0 <= i < |tbl| && tbl[i].patch == p ensures Restored(m, tbl)[p] == tbl[i].data {
          assert tbl[1..][i - 1] == tbl[i];
        }
      }
    }
  }

  ghost function Changed(m0: Image, m: Image): set<nat>
    requires |m| == |m0|
  {
    set p: nat | p < |m| && m[p] != m0[p]
  }

  ghost function Positions(tbl: seq<Record>): set<nat> {
    set i: nat | i < |tbl| :: tbl[i].patch
  }

  lemma {:induction false} PositionsCount(tbl: seq<Record>)
    requires Distinct(tbl)
    ensures |Positions(tbl)| == |tbl|
  {
    if tbl == [] {
    } else {
      var n := |tbl| - 1;
      PositionsCount(tbl[..n]);
      assert Positions(tbl) == Positions(tbl[..n]) + {tbl[n].patch};
    }
  }

  lemma SubsetCount(a: set<nat>, b: set<nat>)
    requires a <= b
    ensures |a| <= |b| && (|a| == |b| ==> a == b)
  {
    assert |b| == |a| + |b - a| by {
      assert b == a + (b - a);
    }
  }

  // ---------- every hit is a word changed ----------

  lemma ChangedGrows(m0: Image, m: Image, p: nat, hook: Word)
    requires |m| == |m0| && p < |m| && m[p] == m0[p] != hook
    ensures |Changed(m0, m[p := hook])| == |Changed(m0, m)| + 1
  {
    assert Changed(m0, m[p := hook]) == Changed(m0, m) + {p};
  }

  lemma WordHits(m0: Image, s: Scan, p: nat, t: Targets)
    requires Proper(t) && Hooked(m0, s.m, s.tbl, t) && Looking(s, t) && 0 < p < |s.m|
    ensures var r := ScanWord(s, p, t);
            |Changed(m0, r.m)| == |Changed(m0, s.m)| + Cleared(s.time, r.time) + Cleared(s.perf, r.perf)
  {
    if s.time != 0 && s.time == s.m[p] {
      ChangedGrows(m0, s.m, p, t.hookTime);
    } else if s.perf != 0 && s.perf == s.m[p] {
      ChangedGrows(m0, s.m, p, t.hookPerf);
    }
  }

  lemma {:induction false} ScanHits(m0: Image, s: Scan, p: nat, hi: nat, t: Targets)
    requires Proper(t) && Hooked(m0, s.m, s.tbl, t) && Looking(s, t) && 0 < p && hi <= |s.m|
    ensures var r := ScanPage(s, p, hi, t);
            |Changed(m0, r.m)| == |Changed(m0, s.m)| + Cleared(s.time, r.time) + Cleared(s.perf, r.perf)
    decreases hi - p
  {
    if p >= hi {
    } else {
      WordHits(m0, s, p, t);
      ScanWordKeeps(m0, s, p, t);
      var s1 := ScanWord(s, p, t);
      ClearedOnce(s, p, t);
      if !(s1.time == 0 && s1.perf == 0) {
        StaysCleared(s1, p + 1, hi, t);
        hide ScanWord, Hooked, Changed;
        ScanHits(m0, s1, p + 1, hi, t);
      }
    }
  }

  lemma ClearedOnce(s: Scan, p: nat, t: Targets)
    requires p < |s.m|
    ensures ScanWord(s, p, t).time in {0, s.time} && ScanWord(s, p, t).perf in {0, s.perf}
  {
  }

  lemma {:induction false} StaysCleared(s: Scan, p: nat, hi: nat, t: Targets)
    requires hi <= |s.m|
    ensures ScanPage(s, p, hi, t).time in {0, s.time} && ScanPage(s, p, hi, t).perf in {0, s.perf}
    decreases hi - p
  {
    if p >= hi {
    } else {
      ClearedOnce(s, p, t);
      var s1 := ScanWord(s, p, t);
      hide ScanWord;
      if !(s1.time == 0 && s1.perf == 0) {
        StaysCleared(s1, p + 1, hi, t);
      }
    }
  }

  lemma {:induction false} HitsAreChanges(m0: Image, m: Image, tbl: seq<Record>, pages: seq<Page>, t: Targets)
    requires Proper(t) && Hooked(m0, m, tbl, t) && forall pg :: pg in pages ==> InImage(|m|, pg)
    ensures |Changed(m0, PatchAll(m, tbl, pages, t).m)| == |Changed(m0, m)| + Hits(m, tbl, pages, t)
    decreases pages
  {
    if pages == [] {
    } else {
      var pg := pages[0];
      assert pg in pages;
      if pg.start != 0 {
        ScanHits(m0, Scan(m, tbl, t.time, t.perf), pg.start, pg.start + pg.words, t);
        ScanPageKeeps(m0, Scan(m, tbl, t.time, t.perf), pg.start, pg.start + pg.words, t);
      }
      var s := Patched(m, tbl, pg, t);
      hide ScanPage, Hooked, Changed;
      HitsAreChanges(m0, s.m, s.tbl, pages[1..], t);
    }
  }

  lemma NothingChanged(m: Image)
    ensures Changed(m, m) == {}
  {
  }

  // ---------- which word gets which replacement ----------

  // Position q is the first of the range that holds x.
  ghost predicate FirstAt(m: Image, x: Word, lo: nat, hi: nat, q: nat) {
    x != 0 && lo <= q < hi <= |m| && m[q] == x && forall k :: lo <= k < q ==> m[k] != x
  }

  // In a page the first word with each address is replaced by the hook for that function, and
  // every other word stays.
  ghost predicate Replaced(m: Image, m': Image, time: Word, perf: Word, lo: nat, hi: nat, t: Targets) {
    |m'| == |m| && forall q :: 0 <= q < |m| ==> m'[q] == Replacement(m, time, perf, lo, hi, t, q)
  }

  ghost function Replacement(m: Image, time: Word, perf: Word, lo: nat, hi: nat, t: Targets, q: nat): Word
    requires q < |m|
  {
    if FirstAt(m, time, lo, hi, q) then t.hookTime
    else if FirstAt(m, perf, lo, hi, q) then t.hookPerf
    else m[q]
  }

  lemma FirstNext(m: Image, m': Image, x: Word, p: nat, hi: nat, q: nat)
    requires p < hi <= |m| == |m'| && forall k :: 0 <= k < |m| && k != p ==> m'[k] == m[k]
    ensures q != p && x != 0 && m[p] != x ==> (FirstAt(m, x, p, hi, q) <==> FirstAt(m', x, p + 1, hi, q))
    ensures x != 0 && m[p] == x ==> (FirstAt(m, x, p, hi, q) <==> q == p)
    ensures q == p ==> !FirstAt(m', x, p + 1, hi, q)
  {
    if FirstAt(m', x, p + 1, hi, q) && m[p] != x {
      assert forall k :: p <= k < q ==> m[k] != x;
    }
  }

  lemma WordReplaces(s: Scan, p: nat, t: Targets)
    requires Proper(t) && Looking(s, t) && p < |s.m|
    ensures ScanWord(s, p, t).m[p] == if s.time != 0 && s.m[p] == s.time then t.hookTime
                                      else if s.perf != 0 && s.m[p] == s.perf then t.hookPerf
                                      else s.m[p]
    ensures Looking(ScanWord(s, p, t), t)
  {
  }

  lemma {:induction false} ScanReplaces(s: Scan, p: nat, hi: nat, t: Targets)
    requires Proper(t) && Looking(s, t) && hi <= |s.m| && (s.time != 0 ==> s.time != s.perf)
    ensures Replaced(s.m, ScanPage(s, p, hi, t).m, s.time, s.perf, p, hi, t)
    decreases hi - p
  {
    if p >= hi {
    } else {
      var s1, r := ScanWord(s, p, t), ScanPage(s, p, hi, t);
      WordFinds(s, p, t);
      WordReplaces(s, p, t);
      hide ScanWord, Proper, Looking;
      if s1.time == 0 && s1.perf == 0 {
        hide ScanPage;
        forall q | 0 <= q < |s.m| ensures r.m[q] == Replacement(s.m, s.time, s.perf, p, hi, t, q) {
          FirstNext(s.m, s1.m, s.time, p, hi, q);
          FirstNext(s.m, s1.m, s.perf, p, hi, q);
        }
      } else {
        ScanReplaces(s1, p + 1, hi, t);
        forall q | 0 <= q < |s.m| ensures r.m[q] == Replacement(s.m, s.time, s.perf, p, hi, t, q) {
          FirstNext(s.m, s1.m, s.time, p, hi, q);
          FirstNext(s.m, s1.m, s.perf, p, hi, q);
        }
      }
    }
  }

  // Hooking one page.
  lemma PageReplaced(m: Image, tbl: seq<Record>, pg: Page, t: Targets)
    requires Proper(t) && InImage(|m|, pg) && pg.start != 0
    ensures Replaced(m, Patched(m, tbl, pg, t).m, t.time, t.perf, pg.start, pg.start + pg.words, t)
  {
    ScanReplaces(Scan(m, tbl, t.time, t.perf), pg.start, pg.start + pg.words, t);
  }

  // ---------- hits on the image as it was ----------

  ghost predicate Found(m: Image, x: Word, lo: nat, hi: nat) {
    x != 0 && exists p :: lo <= p < hi <= |m| && m[p] == x
  }

  // How many of the two functions a page holds; a null page is not looked at.
  ghost function Held(m: Image, pg: Page, t: Targets): nat {
    if pg.start == 0 then 0
    else
      (if Found(m, t.time, pg.start, pg.start + pg.words) then 1 else 0) +
      (if Found(m, t.perf, pg.start, pg.start + pg.words) then 1 else 0)
  }

  ghost function HeldIn(m: Image, pages: seq<Page>, t: Targets): nat {
    if pages == [] then 0 else Held(m, pages[0], t) + HeldIn(m, pages[1..], t)
  }

  predicate Apart(a: Page, b: Page) {
    a.start == 0 || b.start == 0 || a.start + a.words <= b.start || b.start + b.words <= a.start
  }

  ghost predicate PagesApart(pages: seq<Page>) {
    forall i, j :: 0 <= i < j < |pages| ==> Apart(pages[i], pages[j])
  }

  lemma WordFinds(s: Scan, p: nat, t: Targets)
    requires Proper(t) && Looking(s, t) && p < |s.m|
    ensures var r := ScanWord(s, p, t);
            && r.time == (if s.m[p] == s.time then 0 else s.time)
            && r.perf == (if s.m[p] == s.perf then 0 else s.perf)
            && forall q :: 0 <= q < |s.m| && q != p ==> r.m[q] == s.m[q]
  {
  }

  // The scan clears what it finds in the range, and touches nothing else.
  lemma {:induction false} ScanFinds(s: Scan, p: nat, hi: nat, t: Targets)
    requires Proper(t) && Looking(s, t) && hi <= |s.m|
    ensures var r := ScanPage(s, p, hi, t);
            && r.time == (if Found(s.m, s.time, p, hi) then 0 else s.time)
            && r.perf == (if Found(s.m, s.perf, p, hi) then 0 else s.perf)
            && forall q :: 0 <= q < |s.m| && !(p <= q < hi) ==> r.m[q] == s.m[q]
    decreases hi - p
  {
    if p >= hi {
    } else {
      WordFinds(s, p, t);
      var s1 := ScanWord(s, p, t);
      FoundNext(s.m, s1.m, s.time, p, hi);
      FoundNext(s.m, s1.m, s.perf, p, hi);
      hide ScanWord, Found, Proper;
      if !(s1.time == 0 && s1.perf == 0) {
        ScanFinds(s1, p + 1, hi, t);
        NullNotFound(s1.m, p + 1, hi);
      }
    }
  }

  lemma NullNotFound(m: Image, lo: nat, hi: nat)
    ensures !Found(m, 0, lo, hi)
  {
  }

  lemma FoundNext(m: Image, m': Image, x: Word, p: nat, hi: nat)
    requires p < hi <= |m| == |m'| && forall q :: 0 <= q < |m| && q != p ==> m'[q] == m[q]
    ensures Found(m, x, p, hi) <==> x != 0 && (m[p] == x || Found(m', x, p + 1, hi))
  {
    if Found(m, x, p, hi) {
      var q :| p <= q < hi && m[q] == x;
      assert q == p || m'[q] == x;
    }
    if Found(m', x, p + 1, hi) {
      var q :| p + 1 <= q < hi && m'[q] == x;
      assert m[q] == x;
    }
  }

  lemma PageFinds(m: Image, tbl: seq<Record>, pg: Page, t: Targets)
    requires Proper(t) && InImage(|m|, pg)
    ensures PageHits(m, tbl, pg, t) == Held(m, pg, t)
    ensures var r := Patched(m, tbl, pg, t);
            forall q :: 0 <= q < |m| && (pg.start == 0 || !(pg.start <= q < pg.start + pg.words)) ==> r.m[q] == m[q]
  {
    if pg.start != 0 {
      ScanFinds(Scan(m, tbl, t.time, t.perf), pg.start, pg.start + pg.words, t);
      hide ScanPage, Proper;
    }
  }

  lemma HeldFrame(m: Image, m': Image, pg: Page, t: Targets)
    requires |m'| == |m| && forall q :: 0 <= q < |m| && pg.start <= q < pg.start + pg.words ==> m'[q] == m[q]
    ensures Held(m', pg, t) == Held(m, pg, t)
  {
    var lo, hi := pg.start, pg.start + pg.words;
    forall x: Word ensures Found(m', x, lo, hi) <==> Found(m, x, lo, hi) {
      if q :| 0 <= q < |m| && lo <= q < hi && (m[q] == x || m'[q] == x) {
        assert m[q] == m'[q];
      }
    }
  }

  // Patching one page leaves what pages apart from it hold.
  lemma {:induction false} HeldInFrame(m: Image, m': Image, pg: Page, pages: seq<Page>, t: Targets)
    requires |m'| == |m| && forall b :: b in pages ==> Apart(pg, b)
    requires forall q :: 0 <= q < |m| && (pg.start == 0 || !(pg.start <= q < pg.start + pg.words)) ==> m'[q] == m[q]
    ensures HeldIn(m', pages, t) == HeldIn(m, pages, t)
    decreases pages
  {
    if pages == [] {
    } else {
      assert pages[0] in pages && forall b :: b in pages[1..] ==> b in pages;
      if pages[0].start != 0 {
        HeldFrame(m, m', pages[0], t);
      }
      HeldInFrame(m, m', pg, pages[1..], t);
    }
  }

  // For pages apart from each other the hits are the functions the pages hold at the start.
  lemma {:induction false} HitsHeld(m: Image, tbl: seq<Record>, pages: seq<Page>, t: Targets)
    requires Proper(t) && PagesApart(pages) && forall pg :: pg in pages ==> InImage(|m|, pg)
    ensures Hits(m, tbl, pages, t) == HeldIn(m, pages, t)
    decreases pages
  {
    if pages == [] {
    } else {
      var pg := pages[0];
      assert pg in pages;
      PageFinds(m, tbl, pg, t);
      var s := Patched(m, tbl, pg, t);
      forall b | b in pages[1..] ensures b in pages && Apart(pg, b) {
        var i :| 0 <= i < |pages[1..]| && pages[1..][i] == b;
        assert pages[i + 1] == b;
      }
      assert PagesApart(pages[1..]) by {
        forall i, j | 0 <= i < j < |pages[1..]| ensures Apart(pages[1..][i], pages[1..][j]) {
          assert Apart(pages[i + 1], pages[j + 1]);
        }
      }
      hide Patched, Proper, Held, Apart, PagesApart;
      HeldInFrame(m, s.m, pg, pages[1..], t);
      HitsHeld(s.m, s.tbl, pages[1..], t);
    }
  }

  // The recorded positions are changed ones, and all of those unless more than eight are.
  lemma RecordedAre(m0: Image, m: Image, tbl: seq<Record>, t: Targets)
    requires Hooked(m0, m, tbl, t)
    ensures Positions(tbl) <= Changed(m0, m) && |Positions(tbl)| <= MAX_HOOK_ENTRY
    ensures Positions(tbl) == Changed(m0, m) <==> |Changed(m0, m)| <= MAX_HOOK_ENTRY
  {
    PositionsCount(tbl);
    SubsetCount(Positions(tbl), Changed(m0, m));
    if |tbl| < MAX_HOOK_ENTRY {
      forall p | p in Changed(m0, m) ensures p in Positions(tbl) {
        assert IsRecorded(tbl, p);
      }
    }
  }

  lemma RestoredAll(m0: Image, m: Image, tbl: seq<Record>, t: Targets)
    requires Hooked(m0, m, tbl, t) && Positions(tbl) == Changed(m0, m)
    ensures Restored(m, tbl) == m0
  {
    hide Restored;
    forall p | 0 <= p < |m0| ensures Restored(m, tbl)[p] == m0[p] {
      RestoredAt(m, tbl, p);
      if !IsRecorded(tbl, p) {
        assert p !in Positions(tbl);
      }
    }
  }

  lemma RestoredNot(m0: Image, m: Image, tbl: seq<Record>, t: Targets)
    requires Hooked(m0, m, tbl, t) && Positions(tbl) != Changed(m0, m) && Positions(tbl) <= Changed(m0, m)
    ensures Restored(m, tbl) != m0
  {
    hide Restored;
    var p :| p in Changed(m0, m) && p !in Positions(tbl);
    RestoredAt(m, tbl, p);
    assert !IsRecorded(tbl, p);
  }

  // After any hooking, releasing the hooks restores every word exactly when no more words
  // changed than the table has room for; each of them was recorded once.
  lemma RestoreExact(m0: Image, pages: seq<Page>, t: Targets)
    requires Proper(t) && forall pg :: pg in pages ==> InImage(|m0|, pg)
    ensures var s := PatchAll(m0, [], pages, t);
            && Distinct(s.tbl)
            && (Restored(s.m, s.tbl) == m0 <==> |Changed(m0, s.m)| <= MAX_HOOK_ENTRY)
            && (|Changed(m0, s.m)| <= MAX_HOOK_ENTRY ==> Positions(s.tbl) == Changed(m0, s.m))
  {
    PatchAllKeeps(m0, m0, [], pages, t);
    var s := PatchAll(m0, [], pages, t);
    hide Restored, Changed, Positions, Proper, PatchAll, IsRecorded;
    RecordedAre(m0, s.m, s.tbl, t);
    if |Changed(m0, s.m)| <= MAX_HOOK_ENTRY {
      RestoredAll(m0, s.m, s.tbl, t);
    } else {
      RestoredNot(m0, s.m, s.tbl, t);
    }
  }

  // The same, by what the scans find.
  lemma UnhookExact(m0: Image, pages: seq<Page>, t: Targets)
    requires Proper(t) && forall pg :: pg in pages ==> InImage(|m0|, pg)
    ensures var s := PatchAll(m0, [], pages, t);
            && Distinct(s.tbl)
            && (Restored(s.m, s.tbl) == m0 <==> Hits(m0, [], pages, t) <= MAX_HOOK_ENTRY)
            && (Hits(m0, [], pages, t) <= MAX_HOOK_ENTRY ==> Positions(s.tbl) == Changed(m0, s.m))
  {
    HitsAreChanges(m0, m0, [], pages, t);
    NothingChanged(m0);
    hide Hits, Restored, Changed;
    RestoreExact(m0, pages, t);
  }

  // For pages apart from each other: no more than eight of the functions in the pages as they
  // were, counted once a page.
  lemma UnhookHeldExact(m0: Image, pages: seq<Page>, t: Targets)
    requires Proper(t) && PagesApart(pages) && forall pg :: pg in pages ==> InImage(|m0|, pg)
    ensures var s := PatchAll(m0, [], pages, t);
            Restored(s.m, s.tbl) == m0 <==> HeldIn(m0, pages, t) <= MAX_HOOK_ENTRY
  {
    UnhookExact(m0, pages, t);
    hide Proper, Hits, HeldIn, Restored, PagesApart, PatchAll;
    HitsHeld(m0, [], pages, t);
  }

  // An input that is not restored: five pages, each with both functions.
  lemma FivePagesNotRestored(t: Targets)
    requires Proper(t) && t.time != 0 && t.perf != 0
    ensures var m0: Image := [0, t.time, t.perf, t.time, t.perf, t.time, t.perf, t.time, t.perf, t.time, t.perf];
            var pages := [Page(1, 2), Page(3, 2), Page(5, 2), Page(7, 2), Page(9, 2)];
            && (forall pg :: pg in pages ==> InImage(|m0|, pg))
            && var s := PatchAll(m0, [], pages, t); Restored(s.m, s.tbl) != m0
  {
    var m0: Image := [0, t.time, t.perf, t.time, t.perf, t.time, t.perf, t.time, t.perf, t.time, t.perf];
    var pages := [Page(1, 2), Page(3, 2), Page(5, 2), Page(7, 2), Page(9, 2)];
    forall pg | pg in pages ensures InImage(|m0|, pg) && Held(m0, pg, t) == 2 {
      assert m0[pg.start] == t.time && m0[pg.start + 1] == t.perf;
    }
    hide Proper, Held, PatchAll, Restored;
    AllHeld(m0, pages, t);
    UnhookHeldExact(m0, pages, t);
  }

  lemma {:induction false} AllHeld(m: Image, pages: seq<Page>, t: Targets)
    requires forall pg :: pg in pages ==> Held(m, pg, t) == 2
    ensures HeldIn(m, pages, t) == 2 * |pages|
  {
    hide Held;
    if pages == [] {
    } else {
      assert pages[0] in pages && forall pg :: pg in pages[1..] ==> pg in pages;
      AllHeld(m, pages[1..], t);
    }
  }
}
