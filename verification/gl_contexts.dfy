/**
 The table of GL contexts kept for one window: level 0 and up to five more that share
 with the level below.  When the table is full the lowest shared level is evicted.
 */
module GlContexts {

  const MAX_LVLCNTX: nat := 6

  type Handle = nat          // 0 is the null handle

  // The table, and the contexts the driver has created and not yet deleted.
  datatype Contexts = Contexts(slots: seq<Handle>, live: set<Handle>)

  predicate Shaped(s: Contexts) {
    |s.slots| == MAX_LVLCNTX
  }

  function NonNull(slots: seq<Handle>): set<Handle> {
    set i | 0 <= i < |slots| && slots[i] != 0 :: slots[i]
  }

  // The level a guest's level number stands for.
  function SlotOf(level: nat): (n: nat)
    ensures n < MAX_LVLCNTX && (n == 0 <==> level == 0)
  {
    if level != 0 then if level % MAX_LVLCNTX != 0 then level % MAX_LVLCNTX else 1 else 0
  }

  const NONE: seq<Handle> := [0, 0, 0, 0, 0, 0]

  // What the driver returned joins the live contexts.
  function Created(live: set<Handle>, h: Handle): set<Handle> {
    if h != 0 then live + {h} else live
  }

  // Deleting the null handle has no effect.
  function Deleted(live: set<Handle>, h: Handle): set<Handle> {
    if h != 0 then live - {h} else live
  }

  // ---------- the three operations ----------

  // Every context is deleted and a new one takes level 0.
  function Restart(s: Contexts, h: Handle): Contexts {
    Contexts(NONE[0 := h], Created(s.live - NonNull(s.slots), h))
  }

  function FirstFree(slots: seq<Handle>): (i: nat)
    ensures i <= |slots| && (forall k :: 0 <= k < i ==> slots[k] != 0) && (i < |slots| ==> slots[i] == 0)
  {
    if slots == [] || slots[0] == 0 then 0 else 1 + FirstFree(slots[1..])
  }

  // Where a context asked for with attributes goes, which context it shares with
  // (0: none), and the table around it.
  datatype Placement = Placement(level: nat, parent: Handle, kept: Contexts)

  function Place(s: Contexts, share: bool): Placement
    requires Shaped(s)
  {
    var i := FirstFree(s.slots);
    if !share || i == 0 then Placement(0, 0, Contexts(NONE, s.live - NonNull(s.slots)))
    else if i == MAX_LVLCNTX then
      Placement(MAX_LVLCNTX - 1, s.slots[MAX_LVLCNTX - 1],
                Contexts([s.slots[0]] + s.slots[2..] + [0], s.live - {s.slots[1]}))
    else Placement(i, s.slots[i - 1], s)
  }

  function CreateAttribs(s: Contexts, share: bool, h: Handle): Contexts
    requires Shaped(s)
  {
    var p := Place(s, share);
    Contexts(if p.level < |p.kept.slots| then p.kept.slots[p.level := h] else p.kept.slots, Created(p.kept.live, h))
  }

  function Delete(s: Contexts, level: nat): Contexts
    requires Shaped(s)
  {
    var n := SlotOf(level);
    if n == 0 then Contexts(NONE, s.live - NonNull(s.slots))
    else Contexts(s.slots[n := 0], Deleted(s.live, s.slots[n]))
  }

  // ---------- conservation ----------

  // The table holds each live context once, and nothing else; without a context at
  // level 0 there is none at all.
  ghost predicate Conserved(s: Contexts) {
    && Shaped(s)
    && (forall i, j :: 0 <= i < j < MAX_LVLCNTX && s.slots[i] != 0 ==> s.slots[i] != s.slots[j])
    && s.live == NonNull(s.slots)
    && (s.slots[0] == 0 ==> s.slots == NONE)
  }

  datatype Op = Create(h: Handle) | Attribs(share: bool, h: Handle) | DeleteLevel(level: nat)

  function Step(s: Contexts, op: Op): Contexts
    requires Shaped(s)
  {
    match op
    case Create(h) => Restart(s, h)
    case Attribs(share, h) => CreateAttribs(s, share, h)
    case DeleteLevel(level) => Delete(s, level)
  }

  // The driver never hands out a handle that is still in use.
  ghost predicate DriverFresh(s: Contexts, op: Op)
    requires Shaped(s)
  {
    match op
    case Create(h) => h !in s.live - NonNull(s.slots)
    case Attribs(share, h) => h !in Place(s, share).kept.live
    case DeleteLevel(_) => true
  }

  // Placing a context: eviction spares level 0, the table stays conserved with the
  // chosen level free, and the level below it holds the parent, which is live.
  lemma PlaceSound(s: Contexts, share: bool)
    requires Conserved(s)
    ensures var p := Place(s, share);
            && p.level < MAX_LVLCNTX && |p.kept.slots| == MAX_LVLCNTX && p.kept.slots[p.level] == 0
            && p.kept.live == NonNull(p.kept.slots)
            && (forall i, j :: 0 <= i < j < MAX_LVLCNTX && p.kept.slots[i] != 0 ==> p.kept.slots[i] != p.kept.slots[j])
            && (p.level > 0 ==> p.kept.slots[0] == s.slots[0] != 0)
            && (p.level > 0 ==> p.parent == p.kept.slots[p.level - 1] && p.parent in p.kept.live)
            && (share && s.slots[0] != 0 ==> p.level > 0)
  {
    var i := FirstFree(s.slots);
    if share && i == MAX_LVLCNTX {
      var kept := Place(s, share).kept;
      assert forall k :: 1 <= k < MAX_LVLCNTX - 1 ==> kept.slots[k] == s.slots[k + 1];
      forall x ensures x in kept.live <==> x in NonNull(kept.slots) {
        if x in kept.live {
          var k :| 0 <= k < MAX_LVLCNTX && s.slots[k] == x != 0;
          assert kept.slots[if k == 0 then 0 else k - 1] == x;
        }
      }
      assert kept.slots[MAX_LVLCNTX - 2] == s.slots[MAX_LVLCNTX - 1];
    }
  }

  // Asked to share with a full table, the contexts above level 1 move down one, that of level 1
  // is deleted, and the new one shares with the highest.
  lemma EvictsLevelOne(s: Contexts, h: Handle)
    requires Shaped(s) && forall i :: 0 <= i < 6 ==> s.slots[i] != 0
    ensures Place(s, true).parent == s.slots[5]
    ensures CreateAttribs(s, true, h).slots == [s.slots[0], s.slots[2], s.slots[3], s.slots[4], s.slots[5], h]
    ensures CreateAttribs(s, true, h).live == s.live - {s.slots[1]} + (if h != 0 then {h} else {})
  {
    assert FirstFree(s.slots) == 6;
  }

  // With room the new context takes the first free level and shares with the one below.
  lemma TakesFirstFree(s: Contexts, h: Handle, n: nat)
    requires Shaped(s) && 0 < n < 6 && s.slots[n] == 0 && forall i :: 0 <= i < n ==> s.slots[i] != 0
    ensures Place(s, true).parent == s.slots[n - 1]
    ensures CreateAttribs(s, true, h).slots == s.slots[n := h]
    ensures CreateAttribs(s, true, h).live == s.live + (if h != 0 then {h} else {})
  {
    assert FirstFree(s.slots) == n;
  }

  // Not asked to share, or with nothing to share with, all are deleted and level 0 is taken.
  lemma StartsOver(s: Contexts, share: bool, h: Handle)
    requires Shaped(s) && (!share || s.slots[0] == 0)
    ensures Place(s, share).parent == 0 && CreateAttribs(s, share, h).slots == [h, 0, 0, 0, 0, 0]
    ensures CreateAttribs(s, share, h).live == s.live - NonNull(s.slots) + (if h != 0 then {h} else {})
    ensures Step(s, Create(h)) == CreateAttribs(s, share, h)
  {
  }

  // Deleting level 0 deletes them all; any other number deletes one level: the number modulo 6,
  // or 1 where that is 0.
  lemma DeletesLevel(s: Contexts, level: nat, n: nat)
    requires Shaped(s) && 0 < n < 6 && level != 0 && (level % 6 == n || (level % 6 == 0 && n == 1))
    ensures Delete(s, level).slots == s.slots[n := 0]
    ensures Delete(s, level).live == if s.slots[n] != 0 then s.live - {s.slots[n]} else s.live
    ensures Delete(s, 0).slots == [0, 0, 0, 0, 0, 0]
    ensures forall x :: x in Delete(s, 0).live <==>
                          x in s.live && forall i :: 0 <= i < 6 && s.slots[i] != 0 ==> s.slots[i] != x
  {
  }

  // A live handle put in a free slot.
  lemma FillSound(slots: seq<Handle>, n: nat, h: Handle)
    requires n < |slots| && slots[n] == 0 && h !in NonNull(slots)
    ensures NonNull(slots[n := h]) == Created(NonNull(slots), h)
  {
    forall x | x in NonNull(slots) ensures x in NonNull(slots[n := h]) {
      var i :| 0 <= i < |slots| && slots[i] == x != 0;
      assert slots[n := h][i] == x;
    }
    if h != 0 {
      assert slots[n := h][n] == h;
    }
  }

  lemma StepConserves(s: Contexts, op: Op)
    requires Conserved(s) && DriverFresh(s, op)
    ensures Conserved(Step(s, op))
  {
    match op
    case Create(h) =>
      FillSound(NONE, 0, h);
    case Attribs(share, h) =>
      PlaceSound(s, share);
      var p := Place(s, share);
      FillSound(p.kept.slots, p.level, h);
      assert forall k :: 0 <= k < MAX_LVLCNTX && p.kept.slots[k] != 0 ==> p.kept.slots[k] in NonNull(p.kept.slots);
    case DeleteLevel(level) =>
      DeleteConserves(s, level);
  }

  lemma DeleteConserves(s: Contexts, level: nat)
    requires Conserved(s)
    ensures Conserved(Delete(s, level))
  {
    var n, s' := SlotOf(level), Delete(s, level);
    if n > 0 {
      forall x ensures x in s'.live <==> x in NonNull(s'.slots) {
        if x in s'.live {
          var k :| 0 <= k < MAX_LVLCNTX && s.slots[k] == x != 0;
          assert s'.slots[k] == x;
        }
      }
      if s.slots[0] == 0 {
        assert s'.slots == NONE;
      }
    }
  }

  function RunOps(s: Contexts, ops: seq<Op>): (r: Contexts)
    requires Shaped(s)
    ensures Shaped(r)
    decreases ops
  {
    if ops == [] then s
    else
      StepShape(s, ops[0]);
      RunOps(Step(s, ops[0]), ops[1..])
  }

  lemma StepShape(s: Contexts, op: Op)
    requires Shaped(s)
    ensures Shaped(Step(s, op))
  {
  }

  ghost predicate DriverFreshAll(s: Contexts, ops: seq<Op>)
    requires Shaped(s)
    decreases ops
  {
    ops == [] || (DriverFresh(s, ops[0]) && Shaped(Step(s, ops[0])) && DriverFreshAll(Step(s, ops[0]), ops[1..]))
  }

  // In every run no context leaks and none is held twice or after its deletion.
  lemma {:induction false} RunConserves(s: Contexts, ops: seq<Op>)
    requires Conserved(s) && DriverFreshAll(s, ops)
    ensures Conserved(RunOps(s, ops))
    decreases ops
  {
    if ops == [] {
    } else {
      StepConserves(s, ops[0]);
      RunConserves(Step(s, ops[0]), ops[1..]);
    }
  }

  // ---------- the table as the host updates it ----------

  class ContextTable {
    const hRC: array<Handle>
    ghost var live: set<Handle>

    ghost function State(): Contexts
      reads this, hRC
    {
      Contexts(hRC[..], live)
    }

    constructor ()
      ensures fresh(hRC) && Conserved(State()) && State() == Contexts(NONE, {})
    {
      var table := new Handle[MAX_LVLCNTX](_ => 0);
      hRC := table;
      live := {};
      new;
      assert hRC[..] == NONE;
    }

    // wglDeleteContext.
    method DriverDelete(h: Handle)
      modifies this`live
      ensures live == Deleted(old(live), h)
    {
      live := Deleted(live, h);
    }

    // The loop over the table from the top, down to level lo.
    method DeleteFrom(lo: nat)
      requires hRC.Length == MAX_LVLCNTX && lo <= MAX_LVLCNTX
      modifies this`live, hRC
      ensures hRC[..] == old(hRC[..lo]) + NONE[lo..]
      ensures live == old(live) - NonNull(old(hRC[lo..]))
    {
      hide NonNull;
      ghost var m := hRC[..];
      var i := MAX_LVLCNTX;
      NonNullEnd(m);
      while i > lo
        invariant lo <= i <= MAX_LVLCNTX
        invariant forall k :: 0 <= k < i ==> hRC[k] == m[k]
        invariant forall k :: i <= k < MAX_LVLCNTX ==> hRC[k] == 0
        invariant live == old(live) - NonNull(m[i..])
      {
        i := i - 1;
        NonNullLess(m, i, old(live));
        if hRC[i] != 0 {
          DriverDelete(hRC[i]);
          hRC[i] := 0;
        }
      }
      ClearedFrom(m, hRC[..], lo);
    }

    // MGLCreateContext for a window; h is what the driver returns.
    method CreateContext(h: Handle) returns (ret: nat)
      requires hRC.Length == MAX_LVLCNTX
      modifies this`live, hRC
      ensures State() == Restart(old(State()), h) && (ret == 0 <==> h != 0)
    {
      DeleteFrom(0);
      assert hRC[..] == NONE && old(hRC[0..]) == old(hRC[..]);
      hRC[0] := h;
      live := Created(live, h);
      ret := if hRC[0] != 0 then 0 else 1;
      assert hRC[..] == NONE[0 := h];
    }

    // The lowest shared level goes and the levels above it move down.
    method EvictLowest() returns (i: nat)
      requires hRC.Length == MAX_LVLCNTX && hRC[1] != 0
      modifies this`live, hRC
      ensures i == MAX_LVLCNTX - 1 && live == old(live) - {old(hRC[1])}
      ensures hRC[0] == old(hRC[0]) && forall k :: 1 <= k < MAX_LVLCNTX - 1 ==> hRC[k] == old(hRC[k + 1])
    {
      DriverDelete(hRC[1]);
      i := 1;
      while i < MAX_LVLCNTX - 1
        invariant 1 <= i <= MAX_LVLCNTX - 1 && hRC[0] == old(hRC[0]) && live == old(live) - {old(hRC[1])}
        invariant forall k :: 1 <= k < i ==> hRC[k] == old(hRC[k + 1])
        invariant forall k :: i <= k < MAX_LVLCNTX ==> hRC[k] == old(hRC[k])
      {
        hRC[i] := hRC[i + 1];
        i := i + 1;
      }
    }

    method FindFree() returns (i: nat)
      requires hRC.Length == MAX_LVLCNTX
      ensures i == FirstFree(hRC[..])
    {
      i := 0;
      ghost var m := hRC[..];
      while i < MAX_LVLCNTX && hRC[i] != 0
        invariant 0 <= i <= MAX_LVLCNTX && FirstFree(m) == i + FirstFree(m[i..])
      {
        assert m[i..][1..] == m[i + 1..];
        i := i + 1;
      }
    }

    // The wglCreateContextAttribsARB branch; parent is the context it shares with.
    method CreateContextAttribs(share: bool, h: Handle) returns (level: nat, parent: Handle, ret: nat)
      requires hRC.Length == MAX_LVLCNTX
      modifies this`live, hRC
      ensures State() == CreateAttribs(old(State()), share, h)
      ensures level == Place(old(State()), share).level && parent == Place(old(State()), share).parent
      ensures level < MAX_LVLCNTX && hRC[level] == h && (ret == 1 <==> h != 0)
    {
      ghost var m, p := hRC[..], Place(State(), share);
      var i := FindFree();
      level := if share then i else 0;
      if level == 0 {
        DeleteFrom(0);
        assert hRC[..] == NONE && old(hRC[0..]) == m;
        parent := 0;
        hRC[0] := h;
      } else {
        if i == MAX_LVLCNTX {
          i := EvictLowest();
          level := i;
        }
        parent := hRC[i - 1];
        hRC[i] := h;
      }
      live := Created(live, h);
      assert hRC[..] == p.kept.slots[level := h];
      ret := if hRC[level] != 0 then 1 else 0;
    }

    // MGLDeleteContext.
    method DeleteContext(lvl: nat)
      requires hRC.Length == MAX_LVLCNTX
      modifies this`live, hRC
      ensures State() == Delete(old(State()), lvl)
    {
      var n := SlotOf(lvl);
      ghost var m := hRC[..];
      if n == 0 {
        DeleteFrom(1);
        assert m == [m[0]] + m[1..];
        NonNullCons(m[0], m[1..]);
      }
      assert hRC[n] == m[n];
      DriverDelete(hRC[n]);
      hRC[n] := 0;
      assert n == 0 ==> hRC[..] == NONE;
    }
  }

  lemma NonNullFrom(m: seq<Handle>, i: nat)
    requires i < |m|
    ensures NonNull(m[i..]) == NonNull(m[i + 1..]) + if m[i] != 0 then {m[i]} else {}
  {
    assert m[i..] == [m[i]] + m[i + 1..];
    NonNullCons(m[i], m[i + 1..]);
  }

  lemma NonNullLess(m: seq<Handle>, i: nat, all: set<Handle>)
    requires i < |m|
    ensures all - NonNull(m[i..]) == if m[i] != 0 then all - NonNull(m[i + 1..]) - {m[i]}
                                     else all - NonNull(m[i + 1..])
  {
    NonNullFrom(m, i);
    hide NonNull;
  }

  lemma ClearedFrom(m: seq<Handle>, m': seq<Handle>, lo: nat)
    requires |m| == |m'| == MAX_LVLCNTX && lo <= MAX_LVLCNTX
    requires (forall k :: 0 <= k < lo ==> m'[k] == m[k]) && forall k :: lo <= k < MAX_LVLCNTX ==> m'[k] == 0
    ensures m' == m[..lo] + NONE[lo..]
  {
    assert forall k :: lo <= k < MAX_LVLCNTX ==> NONE[k] == 0;
  }

  lemma NonNullEnd(m: seq<Handle>)
    ensures NonNull(m[|m|..]) == {}
  {
  }

  lemma NonNullCons(h: Handle, rest: seq<Handle>)
    ensures NonNull([h] + rest) == NonNull(rest) + (if h != 0 then {h} else {})
  {
    forall x | x in NonNull(rest) ensures x in NonNull([h] + rest) {
      var i :| 0 <= i < |rest| && rest[i] == x != 0;
      assert ([h] + rest)[i + 1] == x;
    }
    if h != 0 {
      assert ([h] + rest)[0] == h;
    }
  }
}
