/**
 The list of mapped buffer objects, keyed by buffer index, as heap nodes; its methods
 are proved against functions on the sequence of its records.
 */
module BufObj {
  import opened HeapList
  import opened Words

  // How a buffer was mapped.
  datatype MapAccess = MapAccess(read: bool, write: bool, explicit: bool)

  const NO_ACCESS := MapAccess(false, false, false)

  // mapbufo_t
  datatype Bufo = Bufo(idx: int, lvl: int, hva: nat, gpa: nat, mused: nat, mapsz: nat, offst: nat, range: nat,
      acc: MapAccess)

  // A record fresh from the allocator, zeroed but for its index.
  function Zeroed(idx: int): Bufo {
    Bufo(idx, 0, 0, 0, 0, 0, 0, 0, NO_ACCESS)
  }

  // ---------- the list as a sequence ----------

  // Position of the record for idx, or the length when there is none.
  function IndexOf(s: seq<Bufo>, idx: int): (i: nat)
    ensures i <= |s| && (forall k :: 0 <= k < i ==> s[k].idx != idx) && (i < |s| ==> s[i].idx == idx)
  {
    if s == [] || s[0].idx == idx then 0 else 1 + IndexOf(s[1..], idx)
  }

  predicate Has(s: seq<Bufo>, idx: int) {
    IndexOf(s, idx) < |s|
  }

  // LookupBufObj: a missing record is added at the end.
  function Looked(s: seq<Bufo>, idx: int): seq<Bufo> {
    if Has(s, idx) then s else s + [Zeroed(idx)]
  }

  // FreeBufObj
  function Freed(s: seq<Bufo>, idx: int): seq<Bufo> {
    var i := IndexOf(s, idx);
    if i < |s| then Without(s, i) else s
  }

  ghost predicate UniqueIdx(s: seq<Bufo>) {
    forall i, j :: 0 <= i < j < |s| ==> s[i].idx != s[j].idx
  }

  // The record for idx; a zeroed one when there is none.
  function Record(s: seq<Bufo>, idx: int): (r: Bufo)
    ensures r.idx == idx
  {
    if Has(s, idx) then s[IndexOf(s, idx)] else Zeroed(idx)
  }

  function Indices(s: seq<Bufo>): set<int> {
    set k | 0 <= k < |s| :: s[k].idx
  }

  // The list read as a finite map from index to record.
  ghost function AsMap(s: seq<Bufo>): map<int, Bufo> {
    map i | i in Indices(s) :: Record(s, i)
  }

  lemma HasIff(s: seq<Bufo>, idx: int)
    ensures Has(s, idx) <==> idx in Indices(s)
  {
    if Has(s, idx) {
      assert s[IndexOf(s, idx)].idx == idx;
    }
    if idx in Indices(s) {
      var k :| 0 <= k < |s| && s[k].idx == idx;
    }
  }

  lemma IndexOfIs(s: seq<Bufo>, idx: int, i: nat)
    requires i <= |s| && (forall k :: 0 <= k < i ==> s[k].idx != idx) && (i < |s| ==> s[i].idx == idx)
    ensures IndexOf(s, idx) == i
  {
  }

  lemma LookedIs(s: seq<Bufo>, idx: int, i: nat)
    requires i <= |s| && (forall k :: 0 <= k < i ==> s[k].idx != idx) && (i < |s| ==> s[i].idx == idx)
    ensures Looked(s, idx) == if i < |s| then s else s + [Zeroed(idx)]
  {
    IndexOfIs(s, idx, i);
  }

  lemma FreedIs(s: seq<Bufo>, idx: int, i: nat)
    requires i <= |s| && (forall k :: 0 <= k < i ==> s[k].idx != idx) && (i < |s| ==> s[i].idx == idx)
    ensures Freed(s, idx) == if i < |s| then Without(s, i) else s
  {
    IndexOfIs(s, idx, i);
  }

  lemma RecordAt(s: seq<Bufo>, k: nat)
    requires UniqueIdx(s) && k < |s|
    ensures Has(s, s[k].idx) && Record(s, s[k].idx) == s[k] && s[k].idx in Indices(s)
  {
    IndexOfIs(s, s[k].idx, k);
  }

  // In a list with unique indices, the map holds exactly the records.
  lemma AsMapIs(s: seq<Bufo>, m: map<int, Bufo>)
    requires UniqueIdx(s)
    requires forall k :: 0 <= k < |s| ==> s[k].idx in m && m[s[k].idx] == s[k]
    requires forall i :: i in m ==> exists k :: 0 <= k < |s| && s[k].idx == i
    ensures AsMap(s) == m
  {
    hide IndexOf, Has, Record;
    forall i | i in m ensures i in Indices(s) && Record(s, i) == m[i] {
      var k :| 0 <= k < |s| && s[k].idx == i;
      RecordAt(s, k);
    }
    forall i | i in Indices(s) ensures i in m {
      var k :| 0 <= k < |s| && s[k].idx == i;
    }
    forall i | i in m ensures i in AsMap(s) && AsMap(s)[i] == m[i] {
    }
  }

  lemma AsMapHolds(s: seq<Bufo>)
    requires UniqueIdx(s)
    ensures forall k :: 0 <= k < |s| ==> s[k].idx in AsMap(s) && AsMap(s)[s[k].idx] == s[k]
    ensures forall i :: i in AsMap(s) ==> exists k :: 0 <= k < |s| && s[k].idx == i
  {
    hide IndexOf, Has, Record;
    forall k | 0 <= k < |s| ensures s[k].idx in AsMap(s) && AsMap(s)[s[k].idx] == s[k] {
      RecordAt(s, k);
    }
  }

  // Lookup refines "find or insert": at most one record is added, at the end.
  // A record made by a lookup has nothing but its index.
  lemma NewRecordZeroed(s: seq<Bufo>, idx: int)
    requires !Has(s, idx)
    ensures var b := Record(Looked(s, idx), idx);
            && b.idx == idx && b.lvl == 0 && b.hva == 0 && b.gpa == 0 && b.mused == 0 && b.mapsz == 0
            && b.offst == 0 && b.range == 0 && !b.acc.write && !b.acc.explicit
  {
    LookedIs(s, idx, |s|);
    IndexOfIs(s + [Zeroed(idx)], idx, |s|);
  }

  lemma LookedRefinesMap(s: seq<Bufo>, idx: int)
    requires UniqueIdx(s)
    ensures var r := Looked(s, idx);
            && UniqueIdx(r) && s <= r && Has(r, idx) && Record(r, idx) == Record(s, idx)
            && |r| == (if idx in AsMap(s) then |s| else |s| + 1)
            && AsMap(r) == if idx in AsMap(s) then AsMap(s) else AsMap(s)[idx := Zeroed(idx)]
  {
    HasIff(s, idx);
    if !Has(s, idx) {
      var r := Looked(s, idx);
      assert r == s + [Zeroed(idx)] && r[|s|].idx == idx;
      assert UniqueIdx(r);
      hide *;
      RecordAtAppended(s, idx);
      AsMapAppend(s, Zeroed(idx));
    }
  }

  lemma RecordAtAppended(s: seq<Bufo>, idx: int)
    requires !Has(s, idx)
    ensures Has(s + [Zeroed(idx)], idx) && Record(s + [Zeroed(idx)], idx) == Zeroed(idx) == Record(s, idx)
  {
    IndexOfIs(s + [Zeroed(idx)], idx, |s|);
  }

  lemma AsMapAppend(s: seq<Bufo>, b: Bufo)
    requires UniqueIdx(s + [b])
    ensures AsMap(s + [b]) == AsMap(s)[b.idx := b]
  {
    var r := s + [b];
    assert r[|s|] == b && forall k :: 0 <= k < |s| ==> r[k] == s[k];
    assert UniqueIdx(s);
    AsMapHolds(s);
    hide AsMap, IndexOf;
    var m := AsMap(s)[b.idx := b];
    forall i | i in m ensures exists k :: 0 <= k < |r| && r[k].idx == i {
      if i == b.idx {
        assert r[|s|].idx == i;
      } else {
        var k :| 0 <= k < |s| && s[k].idx == i;
        assert r[k].idx == i;
      }
    }
    AsMapIs(r, m);
  }

  lemma UniqueWithout(s: seq<Bufo>, i: nat)
    requires UniqueIdx(s) && i < |s|
    ensures UniqueIdx(Without(s, i))
  {
    hide Without;
  }

  lemma UniqueAt(s: seq<Bufo>, j: nat, k: nat)
    requires UniqueIdx(s) && j < |s| && k < |s| && j != k
    ensures s[j].idx != s[k].idx
  {
  }

  lemma AsMapDrop(s: seq<Bufo>, i: nat)
    requires UniqueIdx(s) && i < |s|
    ensures UniqueIdx(Without(s, i))
    ensures AsMap(Without(s, i)) == AsMap(s) - {s[i].idx}
  {
    hide Without, AsMap, IndexOf;
    var r := Without(s, i);
    UniqueWithout(s, i);
    AsMapHolds(s);
    hide UniqueIdx;
    var m := AsMap(s) - {s[i].idx};
    forall k | 0 <= k < |r| ensures r[k].idx in m && m[r[k].idx] == r[k] {
      var k' := if k < i then k else k + 1;
      assert r[k] == s[k'];
      UniqueAt(s, k', i);
    }
    forall x | x in m ensures exists k :: 0 <= k < |r| && r[k].idx == x {
      var k :| 0 <= k < |s| && s[k].idx == x;
      assert s[k] == r[if k < i then k else k - 1];
    }
    AsMapIs(r, m);
  }

  // Free refines removal of one key: every other record stays, in the same order.
  lemma FreedRefinesMap(s: seq<Bufo>, idx: int)
    requires UniqueIdx(s)
    ensures var r := Freed(s, idx);
            && UniqueIdx(r) && !Has(r, idx) && AsMap(r) == AsMap(s) - {idx}
            && |r| == if idx in AsMap(s) then |s| - 1 else |s|
  {
    var i, r := IndexOf(s, idx), Freed(s, idx);
    HasIff(s, idx);
    HasIff(r, idx);
    AsMapHolds(s);
    if i < |s| {
      AsMapDrop(s, i);
      AsMapHolds(r);
      hide *;
      assert idx !in AsMap(r);
    } else {
      assert idx !in AsMap(s);
    }
  }

  // ---------- the heap list ----------

  type BufObjs = List<Bufo>

  // InitBufObj
  method InitBufObj(l: BufObjs)
    requires l.Valid()
    modifies l
    ensures l.Valid() && l.Contents() == []
  {
    var _ := l.Clear();
  }

  method LookupBufObj(l: BufObjs, idx: int) returns (r: Node<Bufo>)
    requires l.Valid()
    modifies l, l.nodes
    ensures l.Valid() && old(l.nodes) <= l.nodes && forall n :: n in l.nodes ==> n in old(l.nodes) || fresh(n)
    ensures l.Contents() == Looked(old(l.Contents()), idx)
    ensures IndexOf(l.Contents(), idx) < |l.nodes| && r == l.nodes[IndexOf(l.Contents(), idx)]
  {
    hide IndexOf, Has, Looked, List<Bufo>.Contents, Distinct;
    var p := l.head;
    ghost var i := 0;
    while p != null && !(idx == p.item.idx || p.next == null)
      invariant p == l.NodeAt(i) && (i < |l.nodes| || i == |l.nodes| == 0)
      invariant forall k :: 0 <= k < i ==> l.nodes[k].item.idx != idx
      decreases |l.nodes| - i
    {
      p := p.next;
      i := i + 1;
    }
    if p != null && idx == p.item.idx {
      r := p;
    } else {
      i := |l.nodes|;
      LookedIs(l.Contents(), idx, |l.nodes|);
      r := l.AddTail(p, Zeroed(idx));
    }
    LookedIs(old(l.Contents()), idx, i);
    IndexOfIs(l.Contents(), idx, i);
  }

  method FreeBufObj(l: BufObjs, idx: int) returns (cnt: nat)
    requires l.Valid()
    modifies l, l.nodes
    ensures l.Valid() && forall n :: n in l.nodes ==> n in old(l.nodes)
    ensures l.Contents() == Freed(old(l.Contents()), idx)
    ensures cnt == |l.Contents()|
  {
    hide IndexOf, Has, Freed, List<Bufo>.Contents, Distinct, Without;
    var prev, curr, i := Seek(l, idx);
    FreedIs(l.Contents(), idx, i);
    if curr != null {
      l.Unlink(prev, curr, i);
    }
    cnt := l.Count();
  }

  // The search loop of FreeBufObj: i is the position of curr.
  method Seek(l: BufObjs, idx: int) returns (prev: Node?<Bufo>, curr: Node?<Bufo>, ghost i: nat)
    requires l.Valid()
    ensures i <= |l.nodes| && curr == l.NodeAt(i) && prev == if i == 0 then l.head else l.nodes[i - 1]
    ensures curr != null ==> curr.item.idx == idx
    ensures forall k :: 0 <= k < i ==> l.Contents()[k].idx != idx
  {
    hide List<Bufo>.Contents, Distinct;
    prev, curr, i := l.head, l.head, 0;
    while curr != null && idx != curr.item.idx
      invariant i <= |l.nodes| && curr == l.NodeAt(i)
      invariant prev == if i == 0 then l.head else l.nodes[i - 1]
      invariant forall k :: 0 <= k < i ==> l.Contents()[k].idx != idx
      decreases |l.nodes| - i
    {
      prev := curr;
      curr := curr.next;
      i := i + 1;
    }
  }
}
