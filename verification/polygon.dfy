/**
 Sparse polygons: the guest sends an index list and one vertex per index, the host
 rebuilds a vertex array large enough for the highest index.
 */
module Polygon {
  import opened Words
  import opened Vertex3x
  import opened GlideCalls

  const VERTEX_WORDS := 15   // SIZE_GRVERTEX, in words

  // The vertex that array position `idx` holds.
  function VertexAt(cache: seq<Word>, idx: nat): seq<Word> {
    if (idx + 1) * VERTEX_WORDS <= |cache| then cache[idx * VERTEX_WORDS..(idx + 1) * VERTEX_WORDS] else []
  }

  predicate LastUse(ilist: seq<Word>, i: nat, n: nat)
    requires i < n <= |ilist|
  {
    forall k :: i < k < n ==> ilist[k] != ilist[i]
  }

  method MaxIndex(ilist: seq<Word>) returns (v: Word)
    ensures forall i :: 0 <= i < |ilist| ==> ilist[i] <= v
    ensures if ilist == [] then v == 0 else v in ilist
  {
    v := 0;
    for i := 0 to |ilist|
      invariant forall k :: 0 <= k < i ==> ilist[k] <= v
      invariant if i == 0 then v == 0 else v in ilist
    {
      v := if ilist[i] > v then ilist[i] else v;
    }
  }

  // What Scatter promises of the array it returns.
  ghost predicate Rebuilt(ilist: seq<Word>, vlist: seq<seq<Word>>, cache: seq<Word>) {
    |ilist| == |vlist| &&
    forall i :: 0 <= i < |ilist| && LastUse(ilist, i, |ilist|) ==> VertexAt(cache, ilist[i]) == vlist[i]
  }

  lemma OtherSlot(a: seq<Word>, b: seq<Word>, idx: nat, k: nat)
    requires |a| == |b| && k != idx
    requires forall w :: 0 <= w < |a| && !(idx * VERTEX_WORDS <= w < (idx + 1) * VERTEX_WORDS) ==> a[w] == b[w]
    ensures VertexAt(a, k) == VertexAt(b, k)
  {
  }

  // One memcpy into the vertex cache.
  method PutVertex(cache: array<Word>, idx: nat, vertex: seq<Word>)
    requires (idx + 1) * VERTEX_WORDS <= cache.Length && |vertex| == VERTEX_WORDS
    modifies cache
    ensures VertexAt(cache[..], idx) == vertex
    ensures forall k: nat :: k != idx ==> VertexAt(cache[..], k) == VertexAt(old(cache[..]), k)
  {
    ghost var before := cache[..];
    var at := idx * VERTEX_WORDS;
    forall w | 0 <= w < VERTEX_WORDS {
      cache[at + w] := vertex[w];
    }
    forall k: nat | k != idx ensures VertexAt(cache[..], k) == VertexAt(before, k) {
      OtherSlot(cache[..], before, idx, k);
    }
  }

  // The polygon case of processArgs: where an index repeats, its last vertex stays.
  method Scatter(ilist: seq<Word>, vlist: seq<seq<Word>>) returns (cache: array<Word>)
    requires |ilist| == |vlist|
    requires forall i :: 0 <= i < |ilist| ==> ilist[i] < 0x8000_0000 && |vlist[i]| == VERTEX_WORDS
    ensures fresh(cache)
    ensures Rebuilt(ilist, vlist, cache[..])
    ensures ilist != [] ==> exists k :: 0 <= k < |ilist| && cache.Length == (ilist[k] + 1) * VERTEX_WORDS
  {
    hide VertexAt;
    var v := MaxIndex(ilist);
    cache := new Word[(v + 1) * VERTEX_WORDS];
    for i := 0 to |ilist|
      invariant forall k :: 0 <= k < i && LastUse(ilist, k, i) ==> VertexAt(cache[..], ilist[k]) == vlist[k]
    {
      ghost var before := cache[..];
      PutVertex(cache, ilist[i], vlist[i]);
      forall k | 0 <= k < i + 1 && LastUse(ilist, k, i + 1)
        ensures VertexAt(cache[..], ilist[k]) == vlist[k]
      {
        if k < i {
          assert ilist[i] != ilist[k] && LastUse(ilist, k, i);
          assert VertexAt(cache[..], ilist[k]) == VertexAt(before, ilist[k]);
        }
      }
    }
  }

  // The guest's own vertex for an index.
  function GuestVertex(mem: Memory, vlist: nat, idx: Word): seq<Word> {
    ReadWords(mem, (vlist + idx * SIZE_GRVERTEX) % 0x1_0000_0000, VERTEX_WORDS)
  }

  lemma {:induction false} LastUseExists(ilist: seq<Word>, i: nat) returns (k: nat)
    requires i < |ilist|
    ensures i <= k < |ilist| && ilist[k] == ilist[i] && LastUse(ilist, k, |ilist|)
    decreases |ilist| - i
  {
    if LastUse(ilist, i, |ilist|) {
      k := i;
    } else {
      var j :| i < j < |ilist| && ilist[j] == ilist[i];
      k := LastUseExists(ilist, j);
    }
  }

  // Where a polygon call's arguments say its indices and vertices are.
  datatype Lists = Lists(count: nat, indices: nat, vertices: nat)

  function ListsOf(c: Call, glide3: bool): Lists
    requires ValidCall(c, glide3) && KindOf(c.f).Polygon?
  {
    RuleArgsPresent(c.f);
    Lists(c.args[0], c.args[1], c.args[2])
  }

  // The pieces of a polygon call: its index list, then the vertex at each index.
  lemma PolygonPieces(c: Call, glide3: bool, v: Vlut, ilist: seq<Word>, vlist: seq<seq<Word>>)
    requires ValidCall(c, glide3) && KindOf(c.f).Polygon?
    requires EventOf(c, glide3, v).chunks == [ilist] + vlist
    ensures var l := ListsOf(c, glide3);
      && ilist == ReadWords(c.mem, l.indices, l.count) && |vlist| == |ilist|
      && forall i :: 0 <= i < |ilist| ==> vlist[i] == GuestVertex(c.mem, l.vertices, ilist[i])
  {
    hide DispatchArgs, KindOf;
    RuleArgsPresent(c.f);
    var e := EventOf(c, glide3, v);
    var srcs := Sources(Polygon, e.args, c.mem, VertexBytes(glide3, v), c.aux);
    FetchAllIndexed(c.mem, Polygon, e.args, VertexBytes(glide3, v), c.aux);
    assert e.chunks == FetchAll(c.mem, srcs) && ilist == e.chunks[0] && |vlist| == e.args[0];
    forall i | 0 <= i < |ilist| ensures vlist[i] == GuestVertex(c.mem, c.args[2], ilist[i]) {
      assert vlist[i] == e.chunks[i + 1] == Fetch(c.mem, srcs[i + 1]);
      assert ilist[i] == c.mem(c.args[1] + 4 * i);
    }
  }

  // Gather then scatter: whatever array the host rebuilds from the event, it holds the
  // guest's own vertex at every index the polygon uses, repeated or not.
  lemma PolygonRoundTrip(c: Call, glide3: bool, v: Vlut, ilist: seq<Word>, vlist: seq<seq<Word>>, cache: seq<Word>)
    requires ValidCall(c, glide3) && KindOf(c.f).Polygon?
    requires EventOf(c, glide3, v).chunks == [ilist] + vlist && Rebuilt(ilist, vlist, cache)
    ensures var l := ListsOf(c, glide3);
      && ilist == ReadWords(c.mem, l.indices, l.count)
      && forall i :: 0 <= i < |ilist| ==> VertexAt(cache, ilist[i]) == GuestVertex(c.mem, l.vertices, ilist[i])
  {
    hide EventOf, ValidCall, KindOf, VertexAt, GuestVertex, ReadWords, ListsOf;
    PolygonPieces(c, glide3, v, ilist, vlist);
    var l := ListsOf(c, glide3);
    forall i | 0 <= i < |ilist| ensures VertexAt(cache, ilist[i]) == GuestVertex(c.mem, l.vertices, ilist[i]) {
      var k := LastUseExists(ilist, i);
      assert VertexAt(cache, ilist[k]) == vlist[k];
    }
  }
}
