// Renaming a response piece by piece, as streaming mode does (pkg/epp/handlers/server.go:283-287), against renaming it
// in one go.
module PiecewiseRename {
  import opened Chunking
  import opened ModelName
  import opened PiecewiseReplace

  function RewriteEach(pieces: seq<Bytes>, target: Bytes, incoming: Bytes): (r: seq<Bytes>)
    ensures |r| == |pieces|
  {
    seq(|pieces|, i requires 0 <= i < |pieces| => RewriteModelName(pieces[i], target, incoming))
  }

  lemma RewriteEachHead(pieces: seq<Bytes>, target: Bytes, incoming: Bytes)
    requires pieces != []
    ensures RewriteEach(pieces, target, incoming)[1..] == RewriteEach(pieces[1..], target, incoming)
  {
    hide RewriteModelName;
  }

  // ---- Fields with names that have no quote ----

  predicate QuoteFree(name: Bytes) { forall i :: 0 <= i < |name| ==> name[i] != 34 }

  /** One of the two spellings of what comes before the name. */
  predicate Opening(x: Bytes) { x == COMPACT || x == SPACED }

  function Field(x: Bytes, name: Bytes): Bytes { x + name + QUOTE }

  lemma QuotesOf(x: Bytes, name: Bytes, p: nat)
    requires Opening(x) && QuoteFree(name) && p < |Field(x, name)|
    ensures Field(x, name)[p] == 34 ==> p == 0 || p == 6 || p == |x| - 1 || p == |x| + |name|
  {
    assert p < |x| ==> Field(x, name)[p] == x[p];
    assert |x| <= p < |x| + |name| ==> Field(x, name)[p] == name[p - |x|];
  }

  /** No field begins with an end of another that is longer than its own opening. */
  lemma NoLongOverlap(x: Bytes, y: Bytes, name: Bytes, other: Bytes, k: nat)
    requires Opening(x) && Opening(y) && QuoteFree(name) && 0 < k && k + |y| < |Field(x, name)|
    ensures !(Field(x, name)[k..] <= Field(y, other))
  {
    var pat, q := Field(x, name), Field(y, other);
    QuotesOf(x, name, k);
    QuotesOf(x, name, k + 6);
    QuotesOf(x, name, k + |y| - 1);
    assert q[0] == y[0] == 34 && q[6] == y[6] == 34 && q[|y| - 1] == y[|y| - 1] == 34;
    var w := pat[k..];
    assert w[0] == pat[k] && w[6] == pat[k + 6] && w[|y| - 1] == pat[k + |y| - 1];
  }

  /** So it is also how the renamed other begins. */
  lemma OverlapSurvives(x: Bytes, y: Bytes, target: Bytes, incoming: Bytes, k: nat)
    requires Opening(x) && Opening(y) && QuoteFree(target)
    requires 0 < k < |Field(x, target)| && Field(x, target)[k..] <= Field(y, target)
    ensures Field(x, target)[k..] <= Field(y, incoming)
  {
    var w := Field(x, target)[k..];
    if |w| > |y| {
      NoLongOverlap(x, y, target, target, k);
    }
    assert w == Field(y, target)[..|w|] == y[..|w|] == Field(y, incoming)[..|w|];
  }

  lemma {:induction false} FieldsApart(x: Bytes, a: Bytes, b: Bytes)
    requires QuoteFree(a) && QuoteFree(b) && a != b
    ensures Apart(Field(x, a), Field(x, b))
  {
    if j :| 0 <= j < |a| && j < |b| && a[j] != b[j] {
      assert Field(x, a)[|x| + j] == a[j] && Field(x, b)[|x| + j] == b[j];
    } else {
      assert |a| != |b|;
      var j := |x| + if |a| < |b| then |a| else |b|;
      assert Field(x, a)[j] != Field(x, b)[j];
    }
  }

  /** A word at the start is copied out if every occurrence of `q` in it runs over its end and is replaced by something
      that goes on as the word does. */
  lemma {:induction false} CopiedOut(w: Bytes, u: Bytes, q: Bytes, r: Bytes)
    requires |q| > 0 && w <= u
    requires forall k: nat :: k < |w| && At(q, u, k) ==> w[k..] <= r
    ensures w <= ReplaceAll(u, q, r)
    decreases |u|
  {
    if w != [] {
      Advance(q, r, u);
      if At(q, u, 0) {
        assert w[0..] == w;
      } else {
        forall k: nat | k < |w[1..]| && At(q, u[1..], k)
          ensures w[1..][k..] <= r
        {
          AtShift(q, u, k);
          assert w[1..][k..] == w[k + 1..];
        }
        CopiedOut(w[1..], u[1..], q, r);
        assert w == [w[0]] + w[1..] && w[0] == u[0];
      }
    }
  }

  /** An end of one field survives the renaming of another that is no shorter. */
  lemma EndSurvives(x: Bytes, y: Bytes, target: Bytes, incoming: Bytes, s: Bytes, k: nat)
    requires Opening(x) && Opening(y) && |x| <= |y| && QuoteFree(target)
    requires 0 < k < |Field(x, target)| && Field(x, target)[k..] <= s
    ensures Field(x, target)[k..] <= ReplaceAll(s, Field(y, target), Field(y, incoming))
  {
    var pat, q, r := Field(x, target), Field(y, target), Field(y, incoming);
    var w := pat[k..];
    forall d: nat | d < |w| && At(q, s, d)
      ensures w[d..] <= r
    {
      assert w[d..] == pat[k + d..];
      assert w[d..] <= q by {
        assert w[d..] == s[d..|w|] && q == s[d..d + |q|];
      }
      OverlapSurvives(x, y, target, incoming, k + d);
    }
    CopiedOut(w, s, q, r);
  }

  // ---- The rename of the pieces and of the whole ----

  function Compacted(s: Bytes, target: Bytes, incoming: Bytes): Bytes {
    ReplaceAll(s, Field(COMPACT, target), Field(COMPACT, incoming))
  }

  function Unspaced(s: Bytes, target: Bytes, incoming: Bytes): Bytes {
    ReplaceAll(s, Field(SPACED, target), Field(SPACED, incoming))
  }

  predicate Requested(target: Bytes, incoming: Bytes) { target != [] && incoming != [] && target != incoming }

  /** The rewrite takes the compact spelling where it occurs, and otherwise the spaced one. */
  lemma RewriteIs(s: Bytes, target: Bytes, incoming: Bytes)
    requires Requested(target, incoming)
    ensures Occurs(Field(COMPACT, target), s)
          ==> RewriteModelName(s, target, incoming) == Compacted(s, target, incoming)
    ensures !Occurs(Field(COMPACT, target), s) ==> Compacted(s, target, incoming) == s
    ensures !Occurs(Field(COMPACT, target), s)
          ==> RewriteModelName(s, target, incoming) == Unspaced(s, target, incoming)
    ensures Unspaced(s, target, incoming) == s <==> !Occurs(Field(SPACED, target), s)
  {
    FieldInjective(target, incoming);
    assert Field(COMPACT, target) == CompactField(target) && Field(COMPACT, incoming) == CompactField(incoming);
    assert Field(SPACED, target) == SpacedField(target) && Field(SPACED, incoming) == SpacedField(incoming);
    ReplaceAllIdentityIff(s, CompactField(target), CompactField(incoming));
    ReplaceAllIdentityIff(s, SpacedField(target), SpacedField(incoming));
  }

  /** No replaced field is cut by a piece boundary; and where the body has the compact spelling, so has every piece that
      has the spaced one. */
  ghost predicate RenamedAsWhole(pieces: seq<Bytes>, target: Bytes) {
    if Occurs(Field(COMPACT, target), Flat(pieces)) then
      && AllClean(Field(COMPACT, target), pieces)
      && forall k :: 0 <= k < |pieces| && Occurs(Field(SPACED, target), pieces[k])
           ==> Occurs(Field(COMPACT, target), pieces[k])
    else AllClean(Field(SPACED, target), pieces)
  }

  lemma {:induction false} OccursInPiece(pattern: Bytes, pieces: seq<Bytes>, k: nat)
    requires k < |pieces| && Occurs(pattern, pieces[k])
    ensures Occurs(pattern, Flat(pieces))
    decreases |pieces|
  {
    hide Occurs;
    var first, rest := pieces[0], Flat(pieces[1..]);
    if k == 0 {
      AtInConcat(pattern, [], first, rest);
      assert [] + first + rest == Flat(pieces);
    } else {
      OccursInPiece(pattern, pieces[1..], k - 1);
      AtInConcat(pattern, first, rest, []);
      assert first + rest + [] == Flat(pieces);
    }
  }

  /** The pieces are given the compact replacement exactly when none has the spaced spelling alone. */
  lemma CompactPieces(pieces: seq<Bytes>, target: Bytes, incoming: Bytes)
    requires Requested(target, incoming)
    ensures AllReplaced(Field(COMPACT, target), Field(COMPACT, incoming), pieces, RewriteEach(pieces, target, incoming))
       <==> (forall k :: 0 <= k < |pieces| && Occurs(Field(SPACED, target), pieces[k]) ==>
               Occurs(Field(COMPACT, target), pieces[k]))
  {
    hide RewriteModelName, Occurs;
    forall k | 0 <= k < |pieces|
      ensures RewriteModelName(pieces[k], target, incoming) == Compacted(pieces[k], target, incoming)
         <==> (Occurs(Field(SPACED, target), pieces[k]) ==> Occurs(Field(COMPACT, target), pieces[k]))
    {
      RewriteIs(pieces[k], target, incoming);
    }
  }

  /** Without the compact spelling anywhere every piece is given the spaced replacement. */
  lemma SpacedPieces(pieces: seq<Bytes>, target: Bytes, incoming: Bytes)
    requires Requested(target, incoming) && !Occurs(Field(COMPACT, target), Flat(pieces))
    ensures AllReplaced(Field(SPACED, target), Field(SPACED, incoming), pieces, RewriteEach(pieces, target, incoming))
  {
    hide RewriteModelName, Occurs;
    forall k | 0 <= k < |pieces|
      ensures RewriteModelName(pieces[k], target, incoming) == Unspaced(pieces[k], target, incoming)
    {
      if Occurs(Field(COMPACT, target), pieces[k]) {
        OccursInPiece(Field(COMPACT, target), pieces, k);
      }
      RewriteIs(pieces[k], target, incoming);
    }
  }

  /** Whatever the names, pieces renamed one by one then join to the rename of the whole. */
  lemma PiecewiseRewrite(pieces: seq<Bytes>, target: Bytes, incoming: Bytes)
    requires RenamedAsWhole(pieces, target)
    ensures Flat(RewriteEach(pieces, target, incoming)) == RewriteModelName(Flat(pieces), target, incoming)
  {
    var outs := RewriteEach(pieces, target, incoming);
    if !Requested(target, incoming) {
      assert outs == pieces;
    } else {
      RewriteIs(Flat(pieces), target, incoming);
      if Occurs(Field(COMPACT, target), Flat(pieces)) {
        CompactPieces(pieces, target, incoming);
        PiecesJoin(Field(COMPACT, target), Field(COMPACT, incoming), pieces, outs);
      } else {
        SpacedPieces(pieces, target, incoming);
        PiecesJoin(Field(SPACED, target), Field(SPACED, incoming), pieces, outs);
      }
    }
  }

  lemma ShortIsKept(x: Bytes, s: Bytes, target: Bytes, incoming: Bytes)
    requires |s| < |Field(x, target)|
    ensures ReplaceAll(s, Field(x, target), Field(x, incoming)) == s
  {
  }

  lemma RewriteIsTame(s: Bytes, target: Bytes, incoming: Bytes)
    requires Requested(target, incoming) && QuoteFree(target)
    ensures Tame(Field(COMPACT, target), s, RewriteModelName(s, target, incoming))
  {
    hide RewriteModelName, Occurs;
    var pat := Field(COMPACT, target);
    RewriteIs(s, target, incoming);
    if |s| < |pat| {
      ShortIsKept(COMPACT, s, target, incoming);
      ShortIsKept(SPACED, s, target, incoming);
    }
    forall k | 0 < k < |pat| && pat[k..] <= s
      ensures pat[k..] <= RewriteModelName(s, target, incoming)
    {
      EndSurvives(COMPACT, COMPACT, target, incoming, s, k);
      EndSurvives(COMPACT, SPACED, target, incoming, s, k);
    }
  }

  lemma UnspacedIsTame(s: Bytes, target: Bytes, incoming: Bytes)
    requires QuoteFree(target)
    ensures Tame(Field(SPACED, target), s, Unspaced(s, target, incoming))
  {
    var pat := Field(SPACED, target);
    if |s| < |pat| {
      ShortIsKept(SPACED, s, target, incoming);
    }
    forall k | 0 < k < |pat| && pat[k..] <= s
      ensures pat[k..] <= Unspaced(s, target, incoming)
    {
      EndSurvives(SPACED, SPACED, target, incoming, s, k);
    }
  }

  /** The compact and the spaced field do not begin at the same place. */
  lemma SpellingsDiffer(s: Bytes, name: Bytes, other: Bytes, i: nat)
    ensures !At(Field(COMPACT, name), s, i) || !At(Field(SPACED, other), s, i)
  {
    NinthByte(COMPACT, s, name, i);
    NinthByte(SPACED, s, other, i);
  }

  lemma NinthByte(x: Bytes, s: Bytes, name: Bytes, i: nat)
    requires Opening(x)
    ensures At(Field(x, name), s, i) ==> i + 8 < |s| && s[i + 8] == x[8]
  {
    assert Field(x, name)[8] == x[8];
    assert At(Field(x, name), s, i) ==> s[i + 8] == s[i..i + |Field(x, name)|][8];
  }

  /** A spaced field at the start is copied out by the compact replacement, if none of the compact fields is inside. */
  lemma SpacedCopiedOut(s: Bytes, tail: Bytes, target: Bytes, incoming: Bytes)
    requires QuoteFree(target) && At(Field(SPACED, target), s, 0) && !Occurs(Field(COMPACT, target), s)
    ensures Field(SPACED, target) <= Compacted(s + tail, target, incoming)
  {
    var w, q, r := Field(SPACED, target), Field(COMPACT, target), Field(COMPACT, incoming);
    var u := s + tail;
    assert w <= s <= u;
    forall k: nat | k < |w| && At(q, u, k)
      ensures w[k..] <= r
    {
      AtInFront(q, s, tail, k);
      assert At(w, u, 0);
      SpellingsDiffer(u, target, target, 0);
      assert w[k..] == u[k..|w|] && q == u[k..k + |q|];
      assert w[k..] <= q;
      OverlapSurvives(SPACED, COMPACT, target, incoming, k);
    }
    CopiedOut(w, u, q, r);
  }

  lemma AtInFront(q: Bytes, s: Bytes, tail: Bytes, k: nat)
    requires At(q, s + tail, k) && !Occurs(q, s)
    ensures k + |q| > |s|
  {
    if k + |q| <= |s| {
      assert (s + tail)[k..k + |q|] == s[k..k + |q|];
      assert At(q, s, k);
    }
  }

  /** A piece with the spaced spelling alone is renamed where the whole, having the compact one, is not. */
  lemma {:induction false} SpacedShows(s: Bytes, tail: Bytes, target: Bytes, incoming: Bytes)
    requires Requested(target, incoming) && QuoteFree(target) && QuoteFree(incoming)
    requires !Occurs(Field(COMPACT, target), s) && Occurs(Field(SPACED, target), s)
    ensures Apart(Unspaced(s, target, incoming), Compacted(s + tail, target, incoming))
    decreases |s|
  {
    var q, q' := Field(COMPACT, target), Field(SPACED, target);
    Advance(q', Field(SPACED, incoming), s);
    Advance(q, Field(COMPACT, incoming), s + tail);
    if At(q', s, 0) {
      SpacedCopiedOut(s, tail, target, incoming);
      FieldsApart(SPACED, incoming, target);
      ApartBefore(Field(SPACED, incoming), Unspaced(s, target, incoming), q', Compacted(s + tail, target, incoming));
    } else {
      OccursInTail(q', s);
      OccursInTail(q, s);
      OccursFits(q', s);
      if At(q, s + tail, 0) {
        AtInFront(q, s, tail, 0);
      }
      DropConcat(s, tail, 1);
      SpacedShows(s[1..], tail, target, incoming);
      ApartAfter([s[0]], Unspaced(s[1..], target, incoming), Compacted(s[1..] + tail, target, incoming));
    }
  }

  lemma OccursFits(pattern: Bytes, s: Bytes)
    requires Occurs(pattern, s)
    ensures |pattern| <= |s|
  {
  }

  lemma RewriteIsTelling(s: Bytes, target: Bytes, incoming: Bytes)
    requires Requested(target, incoming) && QuoteFree(target) && QuoteFree(incoming)
    ensures Telling(Field(COMPACT, target), Field(COMPACT, incoming), s, RewriteModelName(s, target, incoming))
  {
    hide RewriteModelName, Occurs;
    RewriteIs(s, target, incoming);
    if RewriteModelName(s, target, incoming) != Compacted(s, target, incoming) {
      forall tail
        ensures Apart(RewriteModelName(s, target, incoming), Compacted(s + tail, target, incoming))
      {
        SpacedShows(s, tail, target, incoming);
      }
    }
  }

  lemma CompactIff(pieces: seq<Bytes>, target: Bytes, incoming: Bytes)
    requires Requested(target, incoming) && QuoteFree(target) && QuoteFree(incoming)
    requires Occurs(Field(COMPACT, target), Flat(pieces))
    ensures Flat(RewriteEach(pieces, target, incoming)) == RewriteModelName(Flat(pieces), target, incoming)
       <==> RenamedAsWhole(pieces, target)
  {
    hide RewriteModelName, Occurs, AllClean, AllReplaced, Tame, Telling;
    var outs := RewriteEach(pieces, target, incoming);
    forall i | 0 <= i < |pieces|
      ensures Tame(Field(COMPACT, target), pieces[i], outs[i])
      ensures Telling(Field(COMPACT, target), Field(COMPACT, incoming), pieces[i], outs[i])
    {
      RewriteIsTame(pieces[i], target, incoming);
      RewriteIsTelling(pieces[i], target, incoming);
    }
    FieldsApart(COMPACT, target, incoming);
    PiecesJoinIff(Field(COMPACT, target), Field(COMPACT, incoming), pieces, outs);
    CompactPieces(pieces, target, incoming);
    RewriteIs(Flat(pieces), target, incoming);
  }

  lemma SpacedIff(pieces: seq<Bytes>, target: Bytes, incoming: Bytes)
    requires Requested(target, incoming) && QuoteFree(target) && QuoteFree(incoming)
    requires !Occurs(Field(COMPACT, target), Flat(pieces))
    ensures Flat(RewriteEach(pieces, target, incoming)) == RewriteModelName(Flat(pieces), target, incoming)
       <==> RenamedAsWhole(pieces, target)
  {
    hide RewriteModelName, Occurs, AllClean, Tame;
    var pat, sub, outs := Field(SPACED, target), Field(SPACED, incoming), RewriteEach(pieces, target, incoming);
    SpacedPieces(pieces, target, incoming);
    forall i | 0 <= i < |pieces|
      ensures Tame(pat, pieces[i], outs[i]) && Telling(pat, sub, pieces[i], outs[i])
    {
      UnspacedIsTame(pieces[i], target, incoming);
    }
    FieldsApart(SPACED, target, incoming);
    PiecesJoinIff(pat, sub, pieces, outs);
    RewriteIs(Flat(pieces), target, incoming);
  }

  /** For every list of pieces and names without quotes: the pieces renamed one by one join to the rename of the whole
      body if and only if no rename is asked for, or no replaced field is cut by a piece boundary and no piece has the
      spaced spelling alone while the body has the compact one. */
  lemma PiecewiseRewriteIff(pieces: seq<Bytes>, target: Bytes, incoming: Bytes)
    requires QuoteFree(target) && QuoteFree(incoming)
    ensures Flat(RewriteEach(pieces, target, incoming)) == RewriteModelName(Flat(pieces), target, incoming)
       <==> !Requested(target, incoming) || RenamedAsWhole(pieces, target)
  {
    if !Requested(target, incoming) {
      assert RewriteEach(pieces, target, incoming) == pieces;
    } else if Occurs(Field(COMPACT, target), Flat(pieces)) {
      CompactIff(pieces, target, incoming);
    } else {
      SpacedIff(pieces, target, incoming);
    }
  }

  // ---- Reading the condition ----

  /** The field the rewrite of the whole body looks for. */
  ghost function Sought(body: Bytes, target: Bytes): Bytes {
    Field(if Occurs(Field(COMPACT, target), body) then COMPACT else SPACED, target)
  }

  /** Any body, cut anywhere into pieces: if a sought field straddles a boundary and the fields do not overlap, the
      pieces do not join to the rename of the body. */
  lemma CutFieldIsMissed(pieces: seq<Bytes>, k: nat, target: Bytes, incoming: Bytes)
    requires QuoteFree(target) && QuoteFree(incoming) && Requested(target, incoming)
    requires k <= |pieces| && NoOverlap(Sought(Flat(pieces), target), Flat(pieces))
    requires !NoStraddle(Sought(Flat(pieces), target), Flat(pieces[..k]), Flat(pieces[k..]))
    ensures Flat(RewriteEach(pieces, target, incoming)) != RewriteModelName(Flat(pieces), target, incoming)
  {
    FlatCut(pieces, k);
    CleanCutIffNoStraddle(Sought(Flat(pieces), target), Flat(pieces[..k]), Flat(pieces[k..]));
    PiecewiseRewriteIff(pieces, target, incoming);
  }

  /** A body of one field in each spelling, a piece each: the pieces lose both old names, the whole only the first. */
  lemma MixedSpellings(target: Bytes, incoming: Bytes)
    requires QuoteFree(target) && QuoteFree(incoming) && Requested(target, incoming)
    ensures var pieces := [Field(COMPACT, target), Field(SPACED, target)];
            Flat(RewriteEach(pieces, target, incoming)) != RewriteModelName(Flat(pieces), target, incoming)
  {
    var pieces := [Field(COMPACT, target), Field(SPACED, target)];
    assert At(Field(COMPACT, target), pieces[0], 0) && At(Field(SPACED, target), pieces[1], 0);
    OccursInPiece(Field(COMPACT, target), pieces, 0);
    NoCompactInSpaced(target);
    PiecewiseRewriteIff(pieces, target, incoming);
  }

  lemma ShortUnchanged(s: Bytes, target: Bytes, incoming: Bytes)
    requires |s| < |Field(COMPACT, target)|
    ensures RewriteModelName(s, target, incoming) == s
  {
  }

  lemma AtFront(s: Bytes, target: Bytes, incoming: Bytes)
    requires Requested(target, incoming) && |incoming| < |target|
    requires |s| < |Field(COMPACT, target)|
    ensures RewriteModelName(Field(COMPACT, target) + s, target, incoming) == Field(COMPACT, incoming) + s
  {
    var pat, sub := Field(COMPACT, target), Field(COMPACT, incoming);
    assert (pat + s)[..|pat|] == pat && (pat + s)[|pat|..] == s;
    Advance(pat, sub, pat + s);
    assert ReplaceAll(s, pat, sub) == s;
  }

  function Doubled(a: Bytes): Bytes { a + QUOTE + [44] + COMPACT + a }

  lemma DoubledField(a: Bytes)
    ensures Field(COMPACT, Doubled(a)) == Field(COMPACT, a) + [44] + Field(COMPACT, a)
  {
  }

  /** A name that itself holds quotes can hide a cut: here the field of `a","model":"a` is cut, the pieces lose another
      occurrence of it than the whole does, and both come out the same. */
  lemma QuotedNames(a: Bytes)
    requires a != []
    ensures var pieces := [Field(COMPACT, a) + [44], Field(COMPACT, Doubled(a))];
            && Requested(Doubled(a), a) && !RenamedAsWhole(pieces, Doubled(a))
            && Flat(RewriteEach(pieces, Doubled(a), a)) == RewriteModelName(Flat(pieces), Doubled(a), a)
  {
    var target, f := Doubled(a), Field(COMPACT, a);
    var head, pat := f + [44], Field(COMPACT, Doubled(a));
    DoubledField(a);
    CutInside(head, f, target);
    hide RewriteModelName, Field, RenamedAsWhole;
    FlatTwo(head, pat);
    FlatTwo(head, f);
    assert head + pat == pat + ([44] + f) && head + f == f + ([44] + f);
    AtFront([44] + f, target, a);
    AtFront([], target, a);
    assert pat + [] == pat && f + [] == f;
    ShortUnchanged(head, target, a);
    assert RewriteEach([head, pat], target, a) == [head, f];
  }

  lemma CutInside(head: Bytes, rest: Bytes, target: Bytes)
    requires Field(COMPACT, target) == head + rest && head != [] && rest != []
    requires head + rest <= head + (head + rest)
    ensures !RenamedAsWhole([head, head + rest], target)
  {
    var pat, pieces := head + rest, [head, head + rest];
    assert pieces[..1] == [head] && pieces[1..] == [pat];
    FlatOne(head);
    FlatOne(pat);
    FlatTwo(head, pat);
    assert (head + pat)[..|pat|] == pat;
    assert At(pat, head + pat, 0);
    assert !CleanCut(pat, Flat(pieces[..1]), Flat(pieces[1..]));
    assert Occurs(pat, Flat(pieces));
  }

  lemma FlatTwo(a: Bytes, b: Bytes)
    ensures Flat([a, b]) == a + b
  {
    assert [a, b] == [a] + [b];
    FlatConcat([a], [b]);
    FlatOne(a);
    FlatOne(b);
  }

  lemma FirstByte(x: Bytes, s: Bytes, name: Bytes, i: nat)
    requires Opening(x)
    ensures At(Field(x, name), s, i) ==> i < |s| && s[i] == 34
  {
    if At(Field(x, name), s, i) {
      assert s[i] == s[i..i + |Field(x, name)|][0] == Field(x, name)[0] == x[0];
    }
  }

  lemma NoCompactInSpaced(name: Bytes)
    requires QuoteFree(name)
    ensures !Occurs(Field(COMPACT, name), Field(SPACED, name))
  {
    var s := Field(SPACED, name);
    assert At(s, s, 0);
    forall i: nat
      ensures !At(Field(COMPACT, name), s, i)
    {
      if i == 0 {
        SpellingsDiffer(s, name, name, 0);
      } else {
        FirstByte(COMPACT, s, name, i);
        assert s[1] == 109;
      }
    }
  }

  // ---- When a streamed body comes through unchanged ----

  lemma {:induction false} ReplaceAllResizes(s: Bytes, pat: Bytes, sub: Bytes)
    requires |pat| > 0 && Occurs(pat, s)
    ensures |sub| > |pat| ==> |ReplaceAll(s, pat, sub)| > |s|
    ensures |sub| < |pat| ==> |ReplaceAll(s, pat, sub)| < |s|
    decreases |s|
  {
    if s[..|pat|] != pat {
      OccursInTail(pat, s);
      ReplaceAllResizes(s[1..], pat, sub);
    }
  }

  lemma RewriteResizes(body: Bytes, target: Bytes, incoming: Bytes)
    ensures |incoming| == |target| ==> |RewriteModelName(body, target, incoming)| == |body|
    ensures |incoming| > |target| ==> |RewriteModelName(body, target, incoming)| >= |body|
    ensures |incoming| < |target| ==> |RewriteModelName(body, target, incoming)| <= |body|
    ensures RenameApplies(body, target, incoming) ==>
              && (|incoming| > |target| ==> |RewriteModelName(body, target, incoming)| > |body|)
              && (|incoming| < |target| ==> |RewriteModelName(body, target, incoming)| < |body|)
  {
    if RenameApplies(body, target, incoming) {
      FieldInjective(target, incoming);
      ReplaceAllIdentityIff(body, CompactField(target), CompactField(incoming));
      if Occurs(CompactField(target), body) {
        ReplaceAllResizes(body, CompactField(target), CompactField(incoming));
      } else {
        ReplaceAllResizes(body, SpacedField(target), SpacedField(incoming));
      }
    }
  }

  ghost predicate SomePieceRenamed(pieces: seq<Bytes>, target: Bytes, incoming: Bytes) {
    exists k :: 0 <= k < |pieces| && RenameApplies(pieces[k], target, incoming)
  }

  /** Names of different lengths change the length of what they rename, always the same way. */
  lemma {:induction false} PiecesResize(pieces: seq<Bytes>, target: Bytes, incoming: Bytes)
    ensures var out := Flat(RewriteEach(pieces, target, incoming));
            && (|incoming| > |target| ==> |out| >= |Flat(pieces)|)
            && (|incoming| < |target| ==> |out| <= |Flat(pieces)|)
            && (SomePieceRenamed(pieces, target, incoming) && |incoming| != |target| ==> |out| != |Flat(pieces)|)
    decreases |pieces|
  {
    hide RewriteModelName, RenameApplies;
    if pieces != [] {
      PiecesResize(pieces[1..], target, incoming);
      RewriteResizes(pieces[0], target, incoming);
      RewriteEachHead(pieces, target, incoming);
      assert forall k :: 0 < k < |pieces| ==> pieces[k] == pieces[1..][k - 1];
    }
  }

  /** Pieces of the same lengths that join to the same bytes are the same. */
  lemma {:induction false} SameCuts(a: seq<Bytes>, b: seq<Bytes>)
    requires |a| == |b| && Flat(a) == Flat(b) && forall k :: 0 <= k < |a| ==> |a[k]| == |b[k]|
    ensures a == b
    decreases |a|
  {
    if a != [] {
      assert a[0] == Flat(a)[..|a[0]|] && b[0] == Flat(b)[..|b[0]|];
      assert Flat(a[1..]) == Flat(a)[|a[0]|..] && Flat(b[1..]) == Flat(b)[|b[0]|..];
      SameCuts(a[1..], b[1..]);
      assert a == [a[0]] + a[1..] && b == [b[0]] + b[1..];
    }
  }

  /** A streamed body comes through byte for byte exactly when no single piece holds the internal name as a model
      field: one cut by a piece boundary does not count. */
  lemma StreamedUnchangedIff(pieces: seq<Bytes>, target: Bytes, incoming: Bytes)
    ensures Flat(RewriteEach(pieces, target, incoming)) == Flat(pieces) <==> !SomePieceRenamed(pieces, target, incoming)
  {
    forall k | 0 <= k < |pieces|
      ensures RewriteModelName(pieces[k], target, incoming) == pieces[k]
         <==> !RenameApplies(pieces[k], target, incoming)
      ensures |incoming| == |target| ==> |RewriteModelName(pieces[k], target, incoming)| == |pieces[k]|
    {
      RewriteIdentityIff(pieces[k], target, incoming);
      RewriteResizes(pieces[k], target, incoming);
    }
    if SomePieceRenamed(pieces, target, incoming) {
      PiecesResize(pieces, target, incoming);
      var each := RewriteEach(pieces, target, incoming);
      if |incoming| == |target| && Flat(each) == Flat(pieces) {
        SameCuts(each, pieces);
      }
    } else {
      assert RewriteEach(pieces, target, incoming) == pieces;
    }
  }
}
