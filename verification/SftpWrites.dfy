/** Offset writes of the SFTP handler: read the whole file, splice, write the whole file back. */
module SftpWrites {
  import opened Numbers

  datatype Chunk<T> = Chunk(offset: nat, data: seq<T>)
  {
    predicate Covers(i: nat) {
      offset <= i < offset + |data|
    }
  }

  function Zeros<T>(zero: T, n: nat): (z: seq<T>)
    ensures |z| == n && forall i :: 0 <= i < n ==> z[i] == zero
  {
    seq(n, _ => zero)
  }

  /** Python's `s[..i]` and `s[i..]`, which clip at the end. */
  function Take<T>(s: seq<T>, i: nat): seq<T> {
    if i <= |s| then s[..i] else s
  }

  function Drop<T>(s: seq<T>, i: nat): seq<T> {
    if i <= |s| then s[i..] else []
  }

  /** `_apply_write`, on bytes with zero byte 0 or on text with NUL. */
  function ApplyWrite<T>(zero: T, existing: seq<T>, w: Chunk<T>): seq<T> {
    var padded := if w.offset > |existing| then existing + Zeros(zero, w.offset - |existing|) else existing;
    Take(padded, w.offset) + w.data + Drop(padded, w.offset + |w.data|)
  }

  /** `content[offset:offset + size]` */
  function Read<T>(content: seq<T>, offset: nat, size: nat): seq<T> {
    Take(Drop(content, offset), size)
  }

  /** What a file holds at i, the fill value beyond its end. */
  function At<T>(zero: T, content: seq<T>, i: nat): T {
    if i < |content| then content[i] else zero
  }

  /** The result of one write, position by position. */
  lemma WriteAt<T>(zero: T, existing: seq<T>, w: Chunk<T>)
    ensures |ApplyWrite(zero, existing, w)| == Max(|existing|, w.offset + |w.data|)
    ensures forall i: nat :: i < |ApplyWrite(zero, existing, w)| ==>
              ApplyWrite(zero, existing, w)[i] ==
                if w.Covers(i) then w.data[i - w.offset] else At(zero, existing, i)
  {
  }

  /** Reading back the range just written gives the data written. */
  lemma ReadAfterWrite<T>(zero: T, existing: seq<T>, w: Chunk<T>)
    ensures Read(ApplyWrite(zero, existing, w), w.offset, |w.data|) == w.data
  {
  }

  /** A read gives what lies in the range: nothing from the end of the file on, and the last block short. */
  lemma ReadMeans<T>(content: seq<T>, offset: nat, size: nat)
    ensures var data := Read(content, offset, size);
            && |data| == (if |content| <= offset then 0
                          else if |content| - offset < size then |content| - offset else size)
            && forall i :: 0 <= i < |data| ==> data[i] == content[offset + i]
  {
  }

  /** Two writes put the same value wherever both write. */
  ghost predicate Agree<T>(v: Chunk<T>, w: Chunk<T>) {
    forall i: nat :: v.Covers(i) && w.Covers(i) ==> v.data[i - v.offset] == w.data[i - w.offset]
  }

  /** What two writes leave at i: the later one wins where both write. */
  function AfterTwo<T>(zero: T, existing: seq<T>, first: Chunk<T>, second: Chunk<T>, i: nat): T {
    if second.Covers(i) then second.data[i - second.offset]
    else if first.Covers(i) then first.data[i - first.offset]
    else At(zero, existing, i)
  }

  lemma TwoWritesAt<T>(zero: T, existing: seq<T>, v: Chunk<T>, w: Chunk<T>)
    ensures var both := ApplyWrite(zero, ApplyWrite(zero, existing, v), w);
            && |both| == Max(|existing|, Max(v.offset + |v.data|, w.offset + |w.data|))
            && forall i: nat :: i < |both| ==> both[i] == AfterTwo(zero, existing, v, w, i)
  {
    var once := ApplyWrite(zero, existing, v);
    WriteAt(zero, existing, v);
    WriteAt(zero, once, w);
  }

  lemma SameContent<T>(a: seq<T>, b: seq<T>, at: nat -> T, at': nat -> T)
    requires |a| == |b|
    requires forall i: nat :: i < |a| ==> a[i] == at(i)
    requires forall i: nat :: i < |b| ==> b[i] == at'(i)
    ensures a == b <==> forall i: nat :: i < |a| ==> at(i) == at'(i)
  {
  }

  /** Two writes can be swapped iff they agree on their overlap; disjoint ones always can. */
  lemma SwapIffAgree<T>(zero: T, existing: seq<T>, v: Chunk<T>, w: Chunk<T>)
    ensures ApplyWrite(zero, ApplyWrite(zero, existing, v), w) == ApplyWrite(zero, ApplyWrite(zero, existing, w), v)
            <==> Agree(v, w)
  {
    TwoWritesAt(zero, existing, v, w);
    TwoWritesAt(zero, existing, w, v);
    var size := |ApplyWrite(zero, ApplyWrite(zero, existing, v), w)|;
    SameContent(ApplyWrite(zero, ApplyWrite(zero, existing, v), w),
                ApplyWrite(zero, ApplyWrite(zero, existing, w), v),
                i => AfterTwo(zero, existing, v, w, i), i => AfterTwo(zero, existing, w, v, i));
    OrdersMeet(zero, existing, v, w, size);
  }

  lemma OrdersMeet<T>(zero: T, existing: seq<T>, v: Chunk<T>, w: Chunk<T>, size: nat)
    requires v.offset + |v.data| <= size
    ensures (forall i: nat :: i < size ==> AfterTwo(zero, existing, v, w, i) == AfterTwo(zero, existing, w, v, i))
            <==> Agree(v, w)
  {
    if !Agree(v, w) {
      var i: nat :| v.Covers(i) && w.Covers(i) && v.data[i - v.offset] != w.data[i - w.offset];
      assert i < size && AfterTwo(zero, existing, v, w, i) != AfterTwo(zero, existing, w, v, i);
    }
  }

  // ---- Pipelined writes ----

  function ApplyAll<T>(zero: T, existing: seq<T>, ws: seq<Chunk<T>>): seq<T> {
    if ws == [] then existing
    else ApplyWrite(zero, ApplyAll(zero, existing, ws[..|ws| - 1]), ws[|ws| - 1])
  }

  predicate Covered<T(==)>(ws: seq<Chunk<T>>, i: nat) {
    exists w :: w in ws && w.Covers(i)
  }

  ghost predicate AllAgree<T>(ws: seq<Chunk<T>>) {
    forall v, w :: v in ws && w in ws ==> Agree(v, w)
  }

  /** The file is just long enough for the old content and all writes, holds what any of them wrote, and
      elsewhere the old content or zeros: nothing here depends on the order of the writes. */
  ghost predicate Merged<T>(zero: T, existing: seq<T>, ws: seq<Chunk<T>>, file: seq<T>) {
    && |existing| <= |file|
    && (forall w :: w in ws ==> w.offset + |w.data| <= |file|)
    && (|file| == |existing| || exists w :: w in ws && w.offset + |w.data| == |file|)
    && (forall w, i: nat :: w in ws && w.Covers(i) ==> file[i] == w.data[i - w.offset])
    && (forall i: nat :: i < |file| && !Covered(ws, i) ==> file[i] == At(zero, existing, i))
  }

  lemma CoveredByOneMore<T>(ws: seq<Chunk<T>>, w: Chunk<T>, i: nat)
    ensures Covered(ws + [w], i) <==> Covered(ws, i) || w.Covers(i)
  {
  }

  lemma OneMoreWrite<T>(zero: T, existing: seq<T>, ws: seq<Chunk<T>>, file: seq<T>, w: Chunk<T>)
    requires Merged(zero, existing, ws, file) && AllAgree(ws + [w])
    ensures Merged(zero, existing, ws + [w], ApplyWrite(zero, file, w))
  {
    hide ApplyWrite;
    var file' := ApplyWrite(zero, file, w);
    WriteAt(zero, file, w);
    assert w in ws + [w];
    forall v, i: nat | v in ws + [w] && v.Covers(i) ensures file'[i] == v.data[i - v.offset] {
      assert Agree(v, w);
    }
    forall i: nat | i < |file'| && !Covered(ws + [w], i) ensures file'[i] == At(zero, existing, i) {
      CoveredByOneMore(ws, w, i);
    }
  }

  /** What agreeing writes leave, position by position. */
  lemma {:induction false} WritesMerge<T>(zero: T, existing: seq<T>, ws: seq<Chunk<T>>)
    requires AllAgree(ws)
    ensures Merged(zero, existing, ws, ApplyAll(zero, existing, ws))
  {
    if ws != [] {
      var before, w := ws[..|ws| - 1], ws[|ws| - 1];
      assert ws == before + [w];
      WritesMerge(zero, existing, before);
      OneMoreWrite(zero, existing, before, ApplyAll(zero, existing, before), w);
    }
  }

  /** There is only one such file. */
  lemma MergedUnique<T>(zero: T, existing: seq<T>, ws: seq<Chunk<T>>, a: seq<T>, b: seq<T>)
    requires Merged(zero, existing, ws, a) && Merged(zero, existing, ws, b)
    ensures a == b
  {
  }

  lemma SameMembers<T>(ws: seq<Chunk<T>>, ws': seq<Chunk<T>>)
    requires multiset(ws) == multiset(ws')
    ensures forall w :: w in ws <==> w in ws'
  {
    forall w ensures w in ws <==> w in ws' {
      assert w in ws <==> w in multiset(ws);
      assert w in ws' <==> w in multiset(ws');
    }
  }

  lemma AgreeingOrdersMeet<T>(zero: T, existing: seq<T>, ws: seq<Chunk<T>>, ws': seq<Chunk<T>>)
    requires AllAgree(ws) && multiset(ws) == multiset(ws')
    ensures ApplyAll(zero, existing, ws') == ApplyAll(zero, existing, ws)
  {
    SameMembers(ws, ws');
    WritesMerge(zero, existing, ws);
    WritesMerge(zero, existing, ws');
    assert forall i: nat :: Covered(ws, i) <==> Covered(ws', i);
    MergedUnique(zero, existing, ws, ApplyAll(zero, existing, ws), ApplyAll(zero, existing, ws'));
  }

  lemma TakeOut<T>(ws: seq<Chunk<T>>, w: Chunk<T>) returns (rest: seq<Chunk<T>>)
    requires w in ws
    ensures multiset(ws) == multiset(rest) + multiset{w}
  {
    var i :| 0 <= i < |ws| && ws[i] == w;
    rest := ws[..i] + ws[i + 1..];
    assert ws == ws[..i] + [w] + ws[i + 1..];
  }

  /** Two writes of the list can be put last, in either order. */
  lemma PutLast<T>(ws: seq<Chunk<T>>, v: Chunk<T>, w: Chunk<T>) returns (rest: seq<Chunk<T>>)
    requires v in ws && w in ws && v != w
    ensures multiset(rest + [v, w]) == multiset(ws) == multiset(rest + [w, v])
  {
    var without := TakeOut(ws, v);
    assert w in multiset(ws);
    assert w in multiset(without);
    rest := TakeOut(without, w);
    assert multiset([v, w]) == multiset{v, w} == multiset([w, v]);
  }

  lemma LastTwo<T>(zero: T, existing: seq<T>, rest: seq<Chunk<T>>, v: Chunk<T>, w: Chunk<T>)
    ensures ApplyAll(zero, existing, rest + [v, w]) ==
              ApplyWrite(zero, ApplyWrite(zero, ApplyAll(zero, existing, rest), v), w)
  {
    hide ApplyWrite;
    assert (rest + [v, w])[..|rest| + 1] == rest + [v];
    assert (rest + [v])[..|rest|] == rest;
  }

  /** Every order of the writes ends in the same file, on whatever content. */
  ghost predicate OrderFree<T(!new)>(zero: T, existing: seq<T>, ws: seq<Chunk<T>>) {
    forall ws' :: multiset(ws') == multiset(ws) ==> ApplyAll(zero, existing, ws') == ApplyAll(zero, existing, ws)
  }

  /** Pipelined writes can be applied in any order iff every two of them agree where they overlap. */
  lemma OrderFreeIff<T(!new)>(zero: T, existing: seq<T>, ws: seq<Chunk<T>>)
    ensures OrderFree(zero, existing, ws) <==> AllAgree(ws)
  {
    if AllAgree(ws) {
      forall ws' | multiset(ws') == multiset(ws)
        ensures ApplyAll(zero, existing, ws') == ApplyAll(zero, existing, ws)
      {
        AgreeingOrdersMeet(zero, existing, ws, ws');
      }
    } else {
      var v, w :| v in ws && w in ws && !Agree(v, w);
      var one, other := DisagreeingOrdersDiffer(zero, existing, ws, v, w);
    }
  }

  lemma DisagreeingOrdersDiffer<T>(zero: T, existing: seq<T>, ws: seq<Chunk<T>>, v: Chunk<T>, w: Chunk<T>)
    returns (one: seq<Chunk<T>>, other: seq<Chunk<T>>)
    requires v in ws && w in ws && !Agree(v, w)
    ensures multiset(one) == multiset(ws) == multiset(other)
    ensures ApplyAll(zero, existing, one) != ApplyAll(zero, existing, other)
  {
    assert v != w;
    var rest := PutLast(ws, v, w);
    one, other := rest + [v, w], rest + [w, v];
    hide Agree;
    LastTwo(zero, existing, rest, v, w);
    LastTwo(zero, existing, rest, w, v);
    SwapIffAgree(zero, ApplyAll(zero, existing, rest), v, w);
  }

  // ---- Chunks of one file ----

  /** The write carries a piece of `content`, at its place. */
  predicate ChunkOf<T(==)>(content: seq<T>, w: Chunk<T>) {
    w.offset + |w.data| <= |content| && w.data == content[w.offset..w.offset + |w.data|]
  }

  lemma PiecesAgree<T>(content: seq<T>, v: Chunk<T>, w: Chunk<T>)
    requires ChunkOf(content, v) && ChunkOf(content, w)
    ensures Agree(v, w)
  {
  }

  lemma ContentIsMerged<T>(zero: T, content: seq<T>, ws: seq<Chunk<T>>)
    requires forall w :: w in ws ==> ChunkOf(content, w)
    requires forall i: nat :: i < |content| ==> Covered(ws, i)
    ensures Merged(zero, [], ws, content) && AllAgree(ws)
  {
    forall v, w | v in ws && w in ws ensures Agree(v, w) {
      PiecesAgree(content, v, w);
    }
    hide Agree;
    if content != [] {
      assert Covered(ws, |content| - 1);
    }
  }

  /** Chunks of a file that cover it, applied to an empty file in any order, with overlaps and repeats,
      give the file. */
  lemma AssembledInAnyOrder<T(!new)>(zero: T, content: seq<T>, ws: seq<Chunk<T>>)
    requires forall w :: w in ws ==> ChunkOf(content, w)
    requires forall i: nat :: i < |content| ==> Covered(ws, i)
    ensures ApplyAll(zero, [], ws) == content
    ensures OrderFree(zero, [], ws)
  {
    hide ApplyAll, Merged, AllAgree, OrderFree;
    ContentIsMerged(zero, content, ws);
    WritesMerge(zero, [], ws);
    MergedUnique(zero, [], ws, ApplyAll(zero, [], ws), content);
    OrderFreeIff(zero, [], ws);
  }

  type Byte = bv8

  /** The regular-file half of the handler: every operation reads or replaces the whole file. */
  class File {
    var content: seq<Byte>

    constructor ()
      ensures content == []
    {
      content := [];
    }

    method Write(offset: nat, data: seq<Byte>)
      modifies this
      ensures content == ApplyWrite(0, old(content), Chunk(offset, data))
    {
      var existing := content;
      if offset > |existing| {
        existing := existing + Zeros(0, offset - |existing|);
      }
      content := existing[..offset] + data + Drop(existing, offset + |data|);
    }

    method ReadAt(offset: nat, size: nat) returns (data: seq<Byte>)
      ensures data == Read(content, offset, size)
    {
      var rest := if offset <= |content| then content[offset..] else [];
      data := if size <= |rest| then rest[..size] else rest;
    }

    /** Pipelined writes, one after the other. */
    method WriteAll(ws: seq<Chunk<Byte>>)
      modifies this
      ensures content == ApplyAll(0, old(content), ws)
    {
      for k := 0 to |ws|
        invariant content == ApplyAll(0, old(content), ws[..k])
      {
        assert ws[..k + 1][..k] == ws[..k] && ws[..k + 1][k] == ws[k];
        Write(ws[k].offset, ws[k].data);
        assert Chunk(ws[k].offset, ws[k].data) == ws[k];
      }
      assert ws[..|ws|] == ws;
    }
  }
}
