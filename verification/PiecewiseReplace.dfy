// Replacing a pattern piece by piece against replacing it in the whole.
module PiecewiseReplace {
  import opened Chunking
  import opened Sequences
  import opened ModelName

  function Flat(pieces: seq<Bytes>): Bytes {
    if pieces == [] then [] else pieces[0] + Flat(pieces[1..])
  }

  lemma {:induction false} FlatConcat(a: seq<Bytes>, b: seq<Bytes>)
    ensures Flat(a + b) == Flat(a) + Flat(b)
    decreases |a|
  {
    if a == [] {
      assert a + b == b;
    } else {
      FlatConcat(a[1..], b);
      assert (a + b)[0] == a[0] && (a + b)[1..] == a[1..] + b;
      ConcatAssoc(a[0], Flat(a[1..]), Flat(b));
    }
  }

  lemma FlatSnoc(pieces: seq<Bytes>, last: Bytes)
    ensures Flat(pieces + [last]) == Flat(pieces) + last
  {
    FlatConcat(pieces, [last]);
    FlatOne(last);
  }

  // ---- One replacement over a cut ----

  /** The scan that replaces `pat` in `a + b` comes to stand at the end of `a`: no replaced occurrence is cut. */
  ghost predicate CleanCut(pat: Bytes, a: Bytes, b: Bytes)
    requires |pat| > 0
    decreases |a|
  {
    if a == [] then true
    else if At(pat, a + b, 0) then |pat| <= |a| && CleanCut(pat, a[|pat|..], b)
    else CleanCut(pat, a[1..], b)
  }

  /** One step of the scan: what it puts out and how far it advances. */
  lemma Advance(pat: Bytes, sub: Bytes, s: Bytes)
    requires |pat| > 0 && |s| > 0
    ensures At(pat, s, 0) ==> |pat| <= |s| && ReplaceAll(s, pat, sub) == sub + ReplaceAll(s[|pat|..], pat, sub)
    ensures !At(pat, s, 0) ==> ReplaceAll(s, pat, sub) == [s[0]] + ReplaceAll(s[1..], pat, sub)
  {
    if |s| < |pat| {
      assert s == [s[0]] + s[1..];
    }
  }

  lemma AtStart(pat: Bytes, a: Bytes, b: Bytes)
    ensures At(pat, a, 0) <==> At(pat, a + b, 0) && |pat| <= |a|
  {
    if |pat| <= |a| {
      assert (a + b)[..|pat|] == a[..|pat|];
    }
  }

  lemma DropConcat(a: Bytes, b: Bytes, k: nat)
    requires k <= |a|
    ensures (a + b)[k..] == a[k..] + b
  {
  }

  /** Replacement distributes over a clean cut. */
  lemma {:induction false} ReplaceAllConcat(pat: Bytes, sub: Bytes, a: Bytes, b: Bytes)
    requires |pat| > 0 && CleanCut(pat, a, b)
    ensures ReplaceAll(a + b, pat, sub) == ReplaceAll(a, pat, sub) + ReplaceAll(b, pat, sub)
    decreases |a|
  {
    if a == [] {
      assert a + b == b;
      assert ReplaceAll(a, pat, sub) == [];
    } else {
      Advance(pat, sub, a + b);
      Advance(pat, sub, a);
      AtStart(pat, a, b);
      var k := if At(pat, a, 0) then |pat| else 1;
      DropConcat(a, b, k);
      ReplaceAllConcat(pat, sub, a[k..], b);
      ConcatAssoc(if At(pat, a, 0) then sub else [a[0]], ReplaceAll(a[k..], pat, sub), ReplaceAll(b, pat, sub));
    }
  }

  /** The two differ at an index that both have. */
  ghost predicate Apart(x: Bytes, y: Bytes) {
    exists j :: 0 <= j < |x| && j < |y| && x[j] != y[j]
  }

  lemma ApartAfter(pre: Bytes, x: Bytes, y: Bytes)
    requires Apart(x, y)
    ensures Apart(pre + x, pre + y)
  {
    var j :| 0 <= j < |x| && j < |y| && x[j] != y[j];
    assert (pre + x)[|pre| + j] == x[j] && (pre + y)[|pre| + j] == y[j];
  }

  lemma ApartBefore(x: Bytes, x': Bytes, y: Bytes, y': Bytes)
    requires Apart(x, y) && x <= x' && y <= y'
    ensures Apart(x', y')
  {
    var j :| 0 <= j < |x| && j < |y| && x[j] != y[j];
    assert x'[j] == x[j] && y'[j] == y[j];
  }

  /** A cut occurrence shows: what comes out of the pieces still has the name, the whole has the new one. `out` is what
      comes out of `b`; it keeps any end of the pattern with which `b` begins. */
  lemma {:induction false} DirtyCutShows(pat: Bytes, sub: Bytes, a: Bytes, b: Bytes, out: Bytes)
    requires |pat| > 0 && !CleanCut(pat, a, b) && Apart(pat, sub)
    requires forall k :: 0 < k < |pat| && pat[k..] <= b ==> pat[k..] <= out
    ensures Apart(ReplaceAll(a, pat, sub) + out, ReplaceAll(a + b, pat, sub))
    decreases |a|
  {
    Advance(pat, sub, a + b);
    Advance(pat, sub, a);
    AtStart(pat, a, b);
    if At(pat, a + b, 0) && |pat| > |a| {
      StraddlingShows(pat, sub, a, b, out);
    } else {
      var k := if At(pat, a, 0) then |pat| else 1;
      var emitted := if At(pat, a, 0) then sub else [a[0]];
      DropConcat(a, b, k);
      DirtyCutShows(pat, sub, a[k..], b, out);
      ApartAfter(emitted, ReplaceAll(a[k..], pat, sub) + out, ReplaceAll(a[k..] + b, pat, sub));
      ConcatAssoc(emitted, ReplaceAll(a[k..], pat, sub), out);
    }
  }

  lemma StraddlingShows(pat: Bytes, sub: Bytes, a: Bytes, b: Bytes, out: Bytes)
    requires 0 < |a| < |pat| && At(pat, a + b, 0) && Apart(pat, sub)
    requires forall k :: 0 < k < |pat| && pat[k..] <= b ==> pat[k..] <= out
    ensures Apart(ReplaceAll(a, pat, sub) + out, ReplaceAll(a + b, pat, sub))
  {
    assert a == (a + b)[..|a|] == pat[..|a|];
    assert pat[|a|..] <= b by {
      assert (a + b)[|a|..|pat|] == b[..|pat| - |a|];
    }
    assert pat == a + pat[|a|..];
    assert pat <= a + out;
    assert ReplaceAll(a, pat, sub) == a;
    ApartSwap(sub, pat);
    ApartBefore(pat, a + out, sub, ReplaceAll(a + b, pat, sub));
  }

  lemma ApartSwap(x: Bytes, y: Bytes)
    ensures Apart(x, y) <==> Apart(y, x)
  {
  }

  // ---- One replacement over many pieces ----

  /** No boundary between pieces cuts a replaced occurrence. */
  ghost predicate AllClean(pat: Bytes, pieces: seq<Bytes>)
    requires |pat| > 0
  {
    forall k :: 0 <= k <= |pieces| ==> CleanCut(pat, Flat(pieces[..k]), Flat(pieces[k..]))
  }

  /** After a clean cut the scan goes on as if from there. */
  lemma {:induction false} CleanCutCompose(pat: Bytes, a: Bytes, b: Bytes, c: Bytes)
    requires |pat| > 0 && CleanCut(pat, a, b + c)
    ensures CleanCut(pat, a + b, c) <==> CleanCut(pat, b, c)
    decreases |a|
  {
    ConcatAssoc(a, b, c);
    if a == [] {
      assert a + b == b;
    } else {
      var k := if At(pat, a + b + c, 0) then |pat| else 1;
      CleanCutCompose(pat, a[k..], b, c);
      DropConcat(a, b, k);
    }
  }

  lemma FlatCut(pieces: seq<Bytes>, k: nat)
    requires k <= |pieces|
    ensures Flat(pieces) == Flat(pieces[..k]) + Flat(pieces[k..])
  {
    FlatConcat(pieces[..k], pieces[k..]);
    assert pieces == pieces[..k] + pieces[k..];
  }

  /** The boundaries are clean when the first is and those of the rest are. */
  lemma AllCleanHead(pat: Bytes, pieces: seq<Bytes>)
    requires |pat| > 0 && pieces != []
    ensures AllClean(pat, pieces) <==> CleanCut(pat, pieces[0], Flat(pieces[1..])) && AllClean(pat, pieces[1..])
  {
    var first, rest := pieces[0], pieces[1..];
    FlatOne(first);
    assert pieces[..1] == [first];
    forall k | 0 <= k <= |rest|
      ensures CleanCut(pat, first, Flat(rest)) ==>
                (CleanCut(pat, Flat(pieces[..k + 1]), Flat(pieces[k + 1..]))
                 <==> CleanCut(pat, Flat(rest[..k]), Flat(rest[k..])))
    {
      assert pieces[k + 1..] == rest[k..] && pieces[..k + 1] == [first] + rest[..k];
      FlatConcat([first], rest[..k]);
      FlatCut(rest, k);
      if CleanCut(pat, first, Flat(rest)) {
        CleanCutCompose(pat, first, Flat(rest[..k]), Flat(rest[k..]));
      }
    }
    AllCleanParts(pat, pieces);
  }

  lemma AllCleanParts(pat: Bytes, pieces: seq<Bytes>)
    requires |pat| > 0 && pieces != []
    requires forall k :: 0 <= k <= |pieces[1..]| ==> CleanCut(pat, pieces[0], Flat(pieces[1..])) ==>
               (CleanCut(pat, Flat(pieces[..k + 1]), Flat(pieces[k + 1..]))
                <==> CleanCut(pat, Flat(pieces[1..][..k]), Flat(pieces[1..][k..])))
    ensures AllClean(pat, pieces) <==> CleanCut(pat, pieces[0], Flat(pieces[1..])) && AllClean(pat, pieces[1..])
  {
    FlatOne(pieces[0]);
    assert pieces[..1] == [pieces[0]];
    var rest := pieces[1..];
    if AllClean(pat, pieces) {
      assert CleanCut(pat, Flat(pieces[..1]), Flat(pieces[1..]));
      forall k | 0 <= k <= |rest|
        ensures CleanCut(pat, Flat(rest[..k]), Flat(rest[k..]))
      {
        assert CleanCut(pat, Flat(pieces[..k + 1]), Flat(pieces[k + 1..]));
      }
    }
    if CleanCut(pat, pieces[0], Flat(rest)) && AllClean(pat, rest) {
      forall k | 0 <= k <= |pieces|
        ensures CleanCut(pat, Flat(pieces[..k]), Flat(pieces[k..]))
      {
        if k > 0 {
          assert CleanCut(pat, Flat(rest[..k - 1]), Flat(rest[k - 1..]));
        }
      }
    }
  }

  lemma FlatOne(piece: Bytes)
    ensures Flat([piece]) == piece
  {
    assert [piece][1..] == [];
    assert piece + [] == piece;
  }

  /** What comes out of a piece shorter than the pattern is the piece; what comes out of any piece keeps an end of the
      pattern with which it begins. */
  ghost predicate Tame(pat: Bytes, s: Bytes, out: Bytes) {
    && (|s| < |pat| ==> out == s)
    && forall k :: 0 < k < |pat| && pat[k..] <= s ==> pat[k..] <= out
  }

  /** If the piece is not given its replacement, that shows whatever follows. */
  ghost predicate Telling(pat: Bytes, sub: Bytes, s: Bytes, out: Bytes)
    requires |pat| > 0
  {
    out == ReplaceAll(s, pat, sub) || forall tail :: Apart(out, ReplaceAll(s + tail, pat, sub))
  }

  lemma {:induction false} TamePieces(pat: Bytes, pieces: seq<Bytes>, outs: seq<Bytes>, k: nat)
    requires |outs| == |pieces| && forall i :: 0 <= i < |pieces| ==> Tame(pat, pieces[i], outs[i])
    requires 0 < k < |pat| && pat[k..] <= Flat(pieces)
    ensures pat[k..] <= Flat(outs)
    decreases |pieces|
  {
    if pieces != [] {
      var first, w := pieces[0], pat[k..];
      assert Tame(pat, first, outs[0]);
      if |w| <= |first| {
        assert w <= first by {
          assert Flat(pieces)[..|w|] == first[..|w|];
        }
        assert w <= outs[0];
      } else {
        assert first == w[..|first|] && pat[k + |first|..] <= Flat(pieces[1..]) by {
          assert Flat(pieces)[..|first|] == first && Flat(pieces)[|first|..] == Flat(pieces[1..]);
        }
        TamePieces(pat, pieces[1..], outs[1..], k + |first|);
        assert w == first + pat[k + |first|..];
      }
    }
  }

  ghost predicate AllReplaced(pat: Bytes, sub: Bytes, pieces: seq<Bytes>, outs: seq<Bytes>)
    requires |pat| > 0 && |outs| == |pieces|
  {
    forall i :: 0 <= i < |pieces| ==> outs[i] == ReplaceAll(pieces[i], pat, sub)
  }

  /** Pieces replaced one by one join to the replacement of the whole when no cut is dirty. */
  lemma {:induction false} PiecesJoin(pat: Bytes, sub: Bytes, pieces: seq<Bytes>, outs: seq<Bytes>)
    requires |pat| > 0 && |outs| == |pieces| && AllClean(pat, pieces) && AllReplaced(pat, sub, pieces, outs)
    ensures Flat(outs) == ReplaceAll(Flat(pieces), pat, sub)
    decreases |pieces|
  {
    if pieces != [] {
      AllCleanHead(pat, pieces);
      ReplaceAllConcat(pat, sub, pieces[0], Flat(pieces[1..]));
      PiecesJoin(pat, sub, pieces[1..], outs[1..]);
    }
  }

  /** And only then, when what comes out of the pieces is tame and telling. */
  lemma {:induction false} PiecesJoinIff(pat: Bytes, sub: Bytes, pieces: seq<Bytes>, outs: seq<Bytes>)
    requires |pat| > 0 && |outs| == |pieces| && Apart(pat, sub)
    requires forall i :: 0 <= i < |pieces| ==> Tame(pat, pieces[i], outs[i]) && Telling(pat, sub, pieces[i], outs[i])
    ensures Flat(outs) == ReplaceAll(Flat(pieces), pat, sub)
       <==> AllClean(pat, pieces) && AllReplaced(pat, sub, pieces, outs)
    decreases |pieces|
  {
    if pieces == [] {
      NoPieces(pat, sub);
    } else {
      hide AllClean, Tame;
      AllCleanHead(pat, pieces);
      var first, rest := pieces[0], Flat(pieces[1..]);
      var whole := ReplaceAll(first + rest, pat, sub);
      PiecesJoinIff(pat, sub, pieces[1..], outs[1..]);
      if outs[0] != ReplaceAll(first, pat, sub) {
        assert Telling(pat, sub, first, outs[0]);
        ApartBefore(outs[0], Flat(outs), whole, whole);
      } else if CleanCut(pat, first, rest) {
        ReplaceAllConcat(pat, sub, first, rest);
        SamePrefix(outs[0], Flat(outs[1..]), ReplaceAll(rest, pat, sub));
        RestReplaced(pat, sub, pieces, outs);
      } else {
        forall k | 0 < k < |pat| && pat[k..] <= rest
          ensures pat[k..] <= Flat(outs[1..])
        {
          TamePieces(pat, pieces[1..], outs[1..], k);
        }
        DirtyCutShows(pat, sub, first, rest, Flat(outs[1..]));
      }
    }
  }

  lemma NoPieces(pat: Bytes, sub: Bytes)
    requires |pat| > 0
    ensures AllClean(pat, []) && Flat([]) == [] && ReplaceAll([], pat, sub) == []
  {
  }

  lemma SamePrefix(pre: Bytes, x: Bytes, y: Bytes)
    ensures pre + x == pre + y <==> x == y
  {
    assert (pre + x)[|pre|..] == x && (pre + y)[|pre|..] == y;
  }

  lemma RestReplaced(pat: Bytes, sub: Bytes, pieces: seq<Bytes>, outs: seq<Bytes>)
    requires |pat| > 0 && |outs| == |pieces| > 0 && outs[0] == ReplaceAll(pieces[0], pat, sub)
    ensures AllReplaced(pat, sub, pieces, outs) <==> AllReplaced(pat, sub, pieces[1..], outs[1..])
  {
    if AllReplaced(pat, sub, pieces[1..], outs[1..]) {
      forall i | 0 <= i < |pieces|
        ensures outs[i] == ReplaceAll(pieces[i], pat, sub)
      {
        assert i > 0 ==> outs[i] == outs[1..][i - 1] && pieces[i] == pieces[1..][i - 1];
      }
    }
  }

  // ---- Reading the condition ----

  /** No occurrence of `pattern` in `a + b` crosses from `a` into `b`. */
  ghost predicate NoStraddle(pattern: Bytes, a: Bytes, b: Bytes) {
    forall i: nat :: At(pattern, a + b, i) ==> i + |pattern| <= |a| || |a| <= i
  }

  ghost predicate NoOverlap(pattern: Bytes, s: Bytes) {
    forall i: nat, j: nat :: At(pattern, s, i) && At(pattern, s, j) && i < j ==> i + |pattern| <= j
  }

  lemma AtDrop(pattern: Bytes, s: Bytes, k: nat, i: nat)
    requires k <= |s|
    ensures At(pattern, s[k..], i) <==> At(pattern, s, i + k)
  {
    if i + k + |pattern| <= |s| {
      assert s[k..][i..i + |pattern|] == s[i + k..i + k + |pattern|];
    }
  }

  /** A cut that no occurrence straddles is clean; and where occurrences do not overlap, no other is. */
  lemma {:induction false} CleanCutIffNoStraddle(pat: Bytes, a: Bytes, b: Bytes)
    requires |pat| > 0
    ensures NoStraddle(pat, a, b) ==> CleanCut(pat, a, b)
    ensures NoOverlap(pat, a + b) ==> (CleanCut(pat, a, b) <==> NoStraddle(pat, a, b))
    decreases |a|
  {
    if a != [] {
      var k := if At(pat, a + b, 0) then |pat| else 1;
      if k <= |a| {
        DropConcat(a, b, k);
        forall i: nat
          ensures At(pat, a[k..] + b, i) <==> At(pat, a + b, i + k)
        {
          AtDrop(pat, a + b, k, i);
        }
        SuffixOf(pat, a, b, k);
        CleanCutIffNoStraddle(pat, a[k..], b);
      }
    }
  }

  lemma SuffixOf(pat: Bytes, a: Bytes, b: Bytes, k: nat)
    requires 0 < |pat| && 0 < k <= |a| && k == if At(pat, a + b, 0) then |pat| else 1
    requires forall i: nat :: At(pat, a[k..] + b, i) <==> At(pat, a + b, i + k)
    ensures NoStraddle(pat, a, b) ==> NoStraddle(pat, a[k..], b)
    ensures NoOverlap(pat, a + b) ==> NoOverlap(pat, a[k..] + b)
    ensures NoOverlap(pat, a + b) && NoStraddle(pat, a[k..], b) ==> NoStraddle(pat, a, b)
  {
    if NoStraddle(pat, a, b) {
      forall i: nat | At(pat, a[k..] + b, i)
        ensures i + |pat| <= |a[k..]| || |a[k..]| <= i
      {
        assert At(pat, a + b, i + k);
      }
    }
    if NoOverlap(pat, a + b) {
      forall i: nat, j: nat | At(pat, a[k..] + b, i) && At(pat, a[k..] + b, j) && i < j
        ensures i + |pat| <= j
      {
        assert At(pat, a + b, i + k) && At(pat, a + b, j + k);
      }
      if NoStraddle(pat, a[k..], b) {
        forall i: nat | At(pat, a + b, i)
          ensures i + |pat| <= |a| || |a| <= i
        {
          if i >= k {
            assert At(pat, a[k..] + b, i - k);
          }
        }
      }
    }
  }
}
