/**
 The host's shadow of guest vertex memory: arenas, each standing for a range of guest
 addresses, found or added by LookupVertArry. A guest address keeps its place in the shadow,
 and addresses in one arena keep their distance, which is what lets overlapping arrays share it.
 */
module VertexArena {
  import opened Words
  import opened HeapList

  const PAGE_SIZE := 0x1000

  // An arena for guest addresses [tagLo, tagHi), stored from host address ptr on.
  datatype Arena = Arena(tagLo: nat, tagHi: nat, ptr: nat)

  predicate Fits(a: Arena, handle: nat, size: nat) {
    a.tagLo <= handle < a.tagHi && a.tagHi - handle >= size / 2
  }

  // The arena allocated for a handle no arena fits, at the allocator's address ptr.
  function NewArena(handle: nat, size: nat, ptr: nat): Arena {
    var tagLo := if handle > size then handle - size else PAGE_SIZE;
    Arena(tagLo, (tagLo + 2 * size) % 0x1_0000_0000, ptr)
  }

  function FirstFit(s: seq<Arena>, handle: nat, size: nat): (i: nat)
    ensures i <= |s| && (forall k :: 0 <= k < i ==> !Fits(s[k], handle, size)) && (i < |s| ==> Fits(s[i], handle, size))
  {
    if s == [] || Fits(s[0], handle, size) then 0 else 1 + FirstFit(s[1..], handle, size)
  }

  predicate Known(s: seq<Arena>, handle: nat, size: nat) {
    FirstFit(s, handle, size) < |s|
  }

  datatype Request = Request(handle: nat, size: nat, ptr: nat)

  function Looked(s: seq<Arena>, q: Request): seq<Arena> {
    if q.handle == 0 || Known(s, q.handle, q.size) then s else s + [NewArena(q.handle, q.size, q.ptr)]
  }

  // Where an arena keeps a guest address; the distance is a 32-bit difference.
  function At(a: Arena, handle: nat): int {
    a.ptr + if handle >= a.tagLo then handle - a.tagLo else handle - a.tagLo + 0x1_0000_0000
  }

  // The address returned: in the arena that fits, or else in the one just added.
  function Position(s: seq<Arena>, q: Request): Option<int> {
    if q.handle == 0 then None
    else
      var i := FirstFit(s, q.handle, q.size);
      Some(At(if i < |s| then s[i] else NewArena(q.handle, q.size, q.ptr), q.handle))
  }

  // ---------- the operations ----------

  method LookupVertArry(l: List<Arena>, q: Request) returns (r: Option<int>)
    requires l.Valid()
    modifies l, l.nodes
    ensures l.Valid() && forall n :: n in l.nodes ==> n in old(l.nodes) || fresh(n)
    ensures l.Contents() == Looked(old(l.Contents()), q) && r == Position(old(l.Contents()), q)
  {
    hide FirstFit, Known, Looked, Fits, NewArena, List<Arena>.Contents, Distinct;
    if q.handle == 0 {
      HandleZero(l.Contents(), q);
      return None;
    }
    var p := l.head;
    ghost var i := 0;
    while p != null && !(Fits(p.item, q.handle, q.size) || p.next == null)
      invariant p == l.NodeAt(i) && (i < |l.nodes| || i == |l.nodes| == 0)
      invariant forall k :: 0 <= k < i ==> !Fits(l.nodes[k].item, q.handle, q.size)
      decreases |l.nodes| - i
    {
      p := p.next;
      i := i + 1;
    }
    if p == null || !Fits(p.item, q.handle, q.size) {
      i := |l.nodes|;
      LookedIs(l.Contents(), q, i);
      p := l.AddTail(p, NewArena(q.handle, q.size, q.ptr));
    } else {
      LookedIs(l.Contents(), q, i);
    }
    r := Some(At(p.item, q.handle));
  }

  method FreeVertArry(l: List<Arena>) returns (cnt: nat)
    requires l.Valid()
    modifies l
    ensures l.Valid() && l.Contents() == [] && cnt == |old(l.Contents())|
  {
    cnt := l.Clear();
  }

  lemma HandleZero(s: seq<Arena>, q: Request)
    requires q.handle == 0
    ensures Looked(s, q) == s && Position(s, q) == None
  {
  }

  lemma FirstFitIs(s: seq<Arena>, handle: nat, size: nat, i: nat)
    requires i <= |s| && (forall k :: 0 <= k < i ==> !Fits(s[k], handle, size)) &&
        (i < |s| ==> Fits(s[i], handle, size))
    ensures FirstFit(s, handle, size) == i
  {
    hide Fits;
  }

  lemma LookedIs(s: seq<Arena>, q: Request, i: nat)
    requires q.handle != 0
    requires i <= |s| && (forall k :: 0 <= k < i ==> !Fits(s[k], q.handle, q.size)) &&
        (i < |s| ==> Fits(s[i], q.handle, q.size))
    ensures Looked(s, q) == if i < |s| then s else s + [NewArena(q.handle, q.size, q.ptr)]
    ensures Position(s, q) == Some(At(if i < |s| then s[i] else NewArena(q.handle, q.size, q.ptr), q.handle))
  {
    FirstFitIs(s, q.handle, q.size, i);
  }

  // ---------- stability ----------

  // The sizes the allocator is asked for do not wrap.
  predicate Sized(q: Request) {
    2 * q.size + PAGE_SIZE < 0x1_0000_0000 && q.handle < 0x1_0000_0000
  }

  // When a new arena fits the handle it was made for.
  predicate Sound(q: Request) {
    q.size > 0 && if q.handle > q.size then q.handle + q.size < 0x1_0000_0000 else q.handle >= PAGE_SIZE
  }

  lemma NewArenaFits(q: Request)
    requires Sized(q)
    ensures Fits(NewArena(q.handle, q.size, q.ptr), q.handle, q.size) <==> Sound(q)
  {
  }

  // Looking the same request up again finds what the first lookup left, and adds nothing,
  // exactly when an arena fitted before or the new one is sound.
  lemma LookupIdempotentExact(s: seq<Arena>, q: Request)
    requires Sized(q) && q.handle != 0
    ensures Looked(Looked(s, q), q) == Looked(s, q) <==> Known(s, q.handle, q.size) || Sound(q)
  {
    NewArenaFits(q);
    var a, t := NewArena(q.handle, q.size, q.ptr), Looked(s, q);
    hide Fits, NewArena, Sound;
    if !Known(s, q.handle, q.size) {
      assert t == s + [a];
      if Fits(a, q.handle, q.size) {
        FirstFitIs(t, q.handle, q.size, |s|);
      } else {
        FirstFitIs(t, q.handle, q.size, |t|);
        assert |Looked(t, q)| == |t| + 1;
      }
    }
  }

  // A handle within half the size of one that had an arena made for it shares that arena, as
  // far from the other's place as from its address.
  lemma NeighbourShares(s: seq<Arena>, q: Request, p: Request)
    requires Sized(q) && Sound(q) && q.handle != 0 && !Known(s, q.handle, q.size)
    requires p.size == q.size && p.handle >= PAGE_SIZE && !Known(s, p.handle, p.size)
    requires q.handle - q.size / 2 <= p.handle <= q.handle + q.size / 2
    ensures var t := Looked(s, q);
            && Looked(t, p) == t && Position(t, p).Some? && Position(s, q).Some?
            && Position(t, p).value - Position(s, q).value == p.handle - q.handle
  {
    var a := NewArena(q.handle, q.size, q.ptr);
    assert Fits(a, p.handle, p.size) && Fits(a, q.handle, q.size);
    assert a.tagLo <= p.handle && a.tagLo <= q.handle;
    LookedIs(s, q, |s|);
    hide Fits, NewArena, Sound, Sized;
    LookedIs(Looked(s, q), p, |s|);
  }

  // A request near the top of the address space that is not sound: the new arena wraps, so the
  // same request adds another one.
  lemma RepeatedLookupAdds(ptr: nat, ptr': nat)
    ensures var q, again := Request(0xFFFF_FFF0, 0x100, ptr), Request(0xFFFF_FFF0, 0x100, ptr');
            |Looked(Looked([], q), again)| == 2 && Position(Looked([], q), again) == Some(ptr' + 0x100)
  {
    var q, again := Request(0xFFFF_FFF0, 0x100, ptr), Request(0xFFFF_FFF0, 0x100, ptr');
    LookedIs([], q, 0);
    LookedIs(Looked([], q), again, 1);
  }

  function LookAll(s: seq<Arena>, qs: seq<Request>): seq<Arena>
    decreases |qs|
  {
    if qs == [] then s else LookAll(Looked(s, qs[0]), qs[1..])
  }

  lemma KnownStays(s: seq<Arena>, q: Request, p: Request)
    requires q.handle != 0 && Known(s, q.handle, q.size)
    ensures Known(Looked(s, p), q.handle, q.size) && Position(Looked(s, p), q) == Position(s, q)
  {
    var i := FirstFit(s, q.handle, q.size);
    hide Fits, NewArena;
    FirstFitIs(Looked(s, p), q.handle, q.size, i);
  }

  // A request keeps its position through any further lookups, until the arenas are freed.
  lemma {:induction false} PositionStable(s: seq<Arena>, q: Request, qs: seq<Request>)
    requires q.handle != 0 && Known(s, q.handle, q.size)
    ensures Known(LookAll(s, qs), q.handle, q.size) && Position(LookAll(s, qs), q) == Position(s, q)
    decreases |qs|
  {
    hide Known, Position, Looked;
    if qs == [] {
    } else {
      KnownStays(s, q, qs[0]);
      PositionStable(Looked(s, qs[0]), q, qs[1..]);
    }
  }

  // From the lookup that may have added the arena on.
  lemma LookupStable(s: seq<Arena>, q: Request, qs: seq<Request>)
    requires q.handle != 0 && Sized(q)
    requires Known(s, q.handle, q.size) || Sound(q)
    ensures Position(LookAll(Looked(s, q), qs), q) == Position(s, q)
  {
    FirstPosition(s, q);
    hide Known, Position, Looked;
    PositionStable(Looked(s, q), q, qs);
  }

  lemma FirstPosition(s: seq<Arena>, q: Request)
    requires q.handle != 0 && Sized(q)
    requires Known(s, q.handle, q.size) || Sound(q)
    ensures Known(Looked(s, q), q.handle, q.size) && Position(Looked(s, q), q) == Position(s, q)
  {
    if !Known(s, q.handle, q.size) {
      NewArenaFits(q);
      hide Fits, NewArena;
      FirstFitIs(Looked(s, q), q.handle, q.size, |s|);
    }
  }

  // ---------- inside the arena ----------

  // The host bytes of an arena.
  ghost predicate Within(a: Arena, from: int, to: int) {
    a.ptr <= from <= to <= a.ptr + (a.tagHi - a.tagLo)
  }

  // The position is in the arena, with half of the size asked for left after it.
  lemma PositionInArena(s: seq<Arena>, q: Request)
    requires q.handle != 0 && Known(s, q.handle, q.size)
    ensures exists i :: 0 <= i < |s| && Position(s, q) == Some(At(s[i], q.handle))
              && Within(s[i], At(s[i], q.handle), At(s[i], q.handle) + q.size / 2)
  {
    var i := FirstFit(s, q.handle, q.size);
    assert Within(s[i], At(s[i], q.handle), At(s[i], q.handle) + q.size / 2);
  }

  ghost predicate BlocksApart(s: seq<Arena>) {
    forall i, j :: 0 <= i < j < |s| ==>
      s[i].ptr + (s[i].tagHi - s[i].tagLo) <= s[j].ptr || s[j].ptr + (s[j].tagHi - s[j].tagLo) <= s[i].ptr
  }

  // Host ranges that stay in their arenas and share a byte are at the same distance from the
  // guest addresses they stand for.
  lemma SharedBytesAgree(s: seq<Arena>, i: nat, j: nat, h: nat, g: nat, from: int, to: int, from': int, to': int)
    requires BlocksApart(s) && i < |s| && j < |s| && s[i].tagLo <= h && s[j].tagLo <= g
    requires Within(s[i], from, to) && Within(s[j], from', to')
    requires from < to' && from' < to && from < to && from' < to'
    ensures At(s[i], h) - h == At(s[j], g) - g
  {
  }

  // ---------- from the lookups on ----------

  // The allocator gives each new arena a block apart from those in use.
  ghost predicate AllocatorSound(s: seq<Arena>, qs: seq<Request>)
    decreases |qs|
  {
    qs != [] ==> (BlocksApart(s) ==> BlocksApart(Looked(s, qs[0]))) && AllocatorSound(Looked(s, qs[0]), qs[1..])
  }

  lemma {:induction false} LookAllApart(s: seq<Arena>, qs: seq<Request>)
    requires BlocksApart(s) && AllocatorSound(s, qs)
    ensures BlocksApart(LookAll(s, qs))
    decreases |qs|
  {
    hide Looked, BlocksApart;
    if qs == [] {
    } else {
      LookAllApart(Looked(s, qs[0]), qs[1..]);
    }
  }

  lemma {:induction false} LookAllSplit(s: seq<Arena>, qs: seq<Request>, t: nat)
    requires t < |qs|
    ensures LookAll(s, qs) == LookAll(Looked(LookAll(s, qs[..t]), qs[t]), qs[t + 1..])
    decreases t
  {
    hide Looked;
    if t == 0 {
      assert qs[..0] == [];
    } else {
      assert qs[1..][..t - 1] == qs[..t][1..] && qs[1..][t..] == qs[t + 1..];
      LookAllSplit(Looked(s, qs[0]), qs[1..], t - 1);
    }
  }

  // The arena a request is answered from.
  function Home(s: seq<Arena>, q: Request): Arena
    requires Known(s, q.handle, q.size)
  {
    s[FirstFit(s, q.handle, q.size)]
  }

  // Request t of a run of lookups was given pointer ptr by an arena that fits it.
  ghost predicate Answered(s: seq<Arena>, qs: seq<Request>, t: nat, ptr: int)
    requires t < |qs|
  {
    var q, before := qs[t], LookAll(s, qs[..t]);
    && q.handle != 0 && Sized(q) && (Known(before, q.handle, q.size) || Sound(q))
    && Position(before, q) == Some(ptr)
  }

  // At the end of the run its pointer is still the place of its handle in one arena.
  lemma AnsweredHome(s: seq<Arena>, qs: seq<Request>, t: nat, ptr: int)
    requires t < |qs| && Answered(s, qs, t, ptr)
    ensures var q, after := qs[t], LookAll(s, qs);
            && Known(after, q.handle, q.size) && Fits(Home(after, q), q.handle, q.size)
            && ptr == At(Home(after, q), q.handle)
  {
    var q, before := qs[t], LookAll(s, qs[..t]);
    LookAllSplit(s, qs, t);
    FirstPosition(before, q);
    hide Looked, Fits, At;
    PositionStable(Looked(before, q), q, qs[t + 1..]);
  }
}
