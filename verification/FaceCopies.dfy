/// Copies between tiles in memory: a row's two halves are in two faces, so rows
/// move as two runs of words.
module FaceCopies {
  import opened TileFaces
  import opened VectorUnit

  /// `rows` rows from one row on become those from another on.
  ghost predicate RowsCopied(after: seq<Word>, before: seq<Word>, words: seq<Word>, dst: nat, dstRow: nat, src: nat,
                             srcRow: nat, rows: nat)
    requires |after| == |before| && (src + 1) * 1024 <= |words| && srcRow + rows <= 32
  {
    forall i: nat, r: nat, c: nat :: (i + 1) * 1024 <= |after| && r < 32 && c < 32 ==>
      Elem(after, i, r, c) == if i == dst && dstRow <= r < dstRow + rows
        then Elem(words, src, srcRow + (r - dstRow), c) else Elem(before, i, r, c)
  }

  method CopyWords(words: seq<Word>, from_: nat, into: array<Word>, at: nat, n: nat)
    requires from_ + n <= |words| && at + n <= into.Length
    modifies into
    ensures forall x: nat :: x < into.Length ==> into[x] == if at <= x < at + n then words[from_ + (x - at)]
      else old(into[x])
  {
    var k := 0;
    while k < n
      invariant 0 <= k <= n
      invariant forall x: nat :: x < into.Length ==> into[x] == if at <= x < at + k then words[from_ + (x - at)]
        else old(into[x])
    {
      into[at + k] := words[from_ + k];
      k := k + 1;
    }
  }

  ghost predicate RunCopied(after: seq<Word>, before: seq<Word>, words: seq<Word>, dst: nat, dstRow: nat, src: nat,
                            srcRow: nat, rows: nat, f: nat)
    requires |after| == |before| && (src + 1) * 1024 <= |words| && srcRow + rows <= 32
  {
    forall i: nat, r: nat, c: nat :: (i + 1) * 1024 <= |after| && r < 32 && c < 32 ==>
      Elem(after, i, r, c) ==
        if i == dst && dstRow <= r < dstRow + rows && c / 16 == f then Elem(words, src, srcRow + (r - dstRow), c)
          else Elem(before, i, r, c)
  }

  method CopyRun(words: seq<Word>, src: nat, srcRow: nat, into: array<Word>, dst: nat, dstRow: nat, rows: nat, f: nat)
    requires InFace(srcRow, rows) && InFace(dstRow, rows) && f < 2
    requires (src + 1) * 1024 <= |words| && (dst + 1) * 1024 <= into.Length
    modifies into
    ensures RunCopied(into[..], old(into[..]), words, dst, dstRow, src, srcRow, rows, f)
  {
    hide FacePlace, RunPlace;
    RunPlaceIs(srcRow, f);
    RunPlaceIs(dstRow, f);
    RunOfRows(srcRow, rows, f, 0, 0);
    RunOfRows(dstRow, rows, f, 0, 0);
    ghost var before := into[..];
    CopyWords(words, src * 1024 + RunPlace(srcRow, f), into, dst * 1024 + RunPlace(dstRow, f), rows * 16);
    forall i: nat, r: nat, c: nat | (i + 1) * 1024 <= into.Length && r < 32 && c < 32
      ensures Elem(into[..], i, r, c) ==
        if i == dst && dstRow <= r < dstRow + rows && c / 16 == f then Elem(words, src, srcRow + (r - dstRow), c)
          else Elem(before, i, r, c)
    {
      RunOfRows(dstRow, rows, f, r, c);
      if dstRow <= r < dstRow + rows { RunOfRows(srcRow, rows, f, srcRow + (r - dstRow), c); }
    }
  }

  method CopyRows(words: seq<Word>, src: nat, srcRow: nat, into: array<Word>, dst: nat, dstRow: nat, rows: nat)
    requires InFace(srcRow, rows) && InFace(dstRow, rows) && (src + 1) * 1024 <= |words|
      && (dst + 1) * 1024 <= into.Length
    modifies into
    ensures RowsCopied(into[..], old(into[..]), words, dst, dstRow, src, srcRow, rows)
  {
    hide Elem;
    CopyRun(words, src, srcRow, into, dst, dstRow, rows, 0);
    CopyRun(words, src, srcRow, into, dst, dstRow, rows, 1);
    forall c: nat | c < 32 ensures c / 16 == 0 || c / 16 == 1 { Half(c); }
  }

  method CopyTile(words: seq<Word>, src: nat, into: array<Word>, dst: nat)
    requires (src + 1) * 1024 <= |words| && (dst + 1) * 1024 <= into.Length
    modifies into
    ensures RowsCopied(into[..], old(into[..]), words, dst, 0, src, 0, 32)
  {
    hide FacePlace;
    CopyWords(words, src * 1024, into, dst * 1024, 1024);
  }
}
