// Renaming the model in response bytes (rewriteModelName in pkg/epp/handlers/server.go).
module ModelName {
  import opened Chunking
  import opened Sequences

  /** `pattern` stands at position `i` of `s`. */
  ghost predicate At(pattern: Bytes, s: Bytes, i: nat) {
    i + |pattern| <= |s| && s[i..i + |pattern|] == pattern
  }

  ghost predicate Occurs(pattern: Bytes, s: Bytes) {
    exists i: nat :: At(pattern, s, i)
  }

  /** Leftmost, non-overlapping replacement, as bytes.ReplaceAll performs it. */
  function ReplaceAll(s: Bytes, pat: Bytes, sub: Bytes): (r: Bytes)
    requires |pat| > 0
    ensures |sub| >= |pat| ==> |r| >= |s|
    ensures |sub| <= |pat| ==> |r| <= |s|
  {
    if |s| < |pat| then s
    else if s[..|pat|] == pat then sub + ReplaceAll(s[|pat|..], pat, sub)
    else [s[0]] + ReplaceAll(s[1..], pat, sub)
  }

  lemma AtShift(pattern: Bytes, s: Bytes, i: nat)
    requires |s| > 0
    ensures At(pattern, s[1..], i) <==> At(pattern, s, i + 1)
  {
    if i + 1 + |pattern| <= |s| {
      SliceShift(s, i, i + |pattern|);
    }
  }

  lemma SliceShift(s: Bytes, i: nat, j: nat)
    requires i <= j < |s|
    ensures s[1..][i..j] == s[i + 1..j + 1]
  {
    var t := s[1..];
    forall k | 0 <= k < j - i
      ensures t[i..j][k] == s[i + 1..j + 1][k]
    {
      assert t[i..j][k] == t[i + k] == s[i + k + 1];
    }
  }

  lemma OccursInTail(pattern: Bytes, s: Bytes)
    requires |s| > 0
    ensures Occurs(pattern, s[1..]) ==> Occurs(pattern, s)
    ensures Occurs(pattern, s) && !At(pattern, s, 0) ==> Occurs(pattern, s[1..])
  {
    if Occurs(pattern, s[1..]) {
      var i: nat :| At(pattern, s[1..], i);
      AtShift(pattern, s, i);
      assert At(pattern, s, i + 1);
    }
    if Occurs(pattern, s) && !At(pattern, s, 0) {
      var i: nat :| At(pattern, s, i);
      AtShift(pattern, s, i - 1);
      assert At(pattern, s[1..], i - 1);
    }
  }

  /** Replacement is the identity exactly when there is nothing to replace. */
  lemma {:induction false} ReplaceAllIdentityIff(s: Bytes, pat: Bytes, sub: Bytes)
    requires |pat| > 0 && pat != sub
    ensures ReplaceAll(s, pat, sub) == s <==> !Occurs(pat, s)
    decreases |s|
  {
    if |s| < |pat| {
    } else if s[..|pat|] == pat {
      assert At(pat, s, 0);
      var r := ReplaceAll(s, pat, sub);
      if |sub| == |pat| {
        assert r[..|pat|] == sub;
      }
    } else {
      ReplaceAllIdentityIff(s[1..], pat, sub);
      OccursInTail(pat, s);
      assert !At(pat, s, 0);
      assert s == [s[0]] + s[1..];
      assert ReplaceAll(s, pat, sub)[1..] == ReplaceAll(s[1..], pat, sub);
    }
  }

  // The byte strings  "model":"  and  "model": "  and the closing quote.
  const COMPACT: Bytes := [34, 109, 111, 100, 101, 108, 34, 58, 34]
  const SPACED: Bytes := [34, 109, 111, 100, 101, 108, 34, 58, 32, 34]
  const QUOTE: Bytes := [34]

  function AsByte(c: char): Byte { if c < 128 as char then c as int as Byte else 0 }

  /** The bytes are those of the ASCII string. */
  predicate Spells(b: Bytes, s: string) { |b| == |s| && forall i :: 0 <= i < |s| ==> b[i] == AsByte(s[i]) }

  lemma Letters()
    ensures AsByte('"') == 34 && AsByte('m') == 109 && AsByte('o') == 111 && AsByte('d') == 100 && AsByte('e') == 101
    ensures AsByte('l') == 108 && AsByte(':') == 58 && AsByte(' ') == 32
  {
  }

  /** The two spellings of what comes before the name, and the quote after it, as they stand in a JSON body. */
  lemma FieldsSpelled()
    ensures Spells(COMPACT, "\"model\":\"") && Spells(SPACED, "\"model\": \"") && Spells(QUOTE, "\"")
  {
    hide AsByte;
    Letters();
  }

  function CompactField(model: Bytes): Bytes { COMPACT + model + QUOTE }

  function SpacedField(model: Bytes): Bytes { SPACED + model + QUOTE }

  function RewriteModelName(body: Bytes, target: Bytes, incoming: Bytes): (r: Bytes) {
    if target == [] || incoming == [] || target == incoming then body
    else
      var compact := ReplaceAll(body, CompactField(target), CompactField(incoming));
      if compact != body then compact
      else ReplaceAll(body, SpacedField(target), SpacedField(incoming))
  }

  /** A rename is requested and the body holds the internal name as a model field. */
  ghost predicate RenameApplies(body: Bytes, target: Bytes, incoming: Bytes) {
    && target != [] && incoming != [] && target != incoming
    && (Occurs(CompactField(target), body) || Occurs(SpacedField(target), body))
  }

  lemma FieldInjective(a: Bytes, b: Bytes)
    requires a != b
    ensures CompactField(a) != CompactField(b) && SpacedField(a) != SpacedField(b)
  {
    assert CompactField(a)[|COMPACT|..|CompactField(a)| - 1] == a
         && CompactField(b)[|COMPACT|..|CompactField(b)| - 1] == b;
    assert SpacedField(a)[|SPACED|..|SpacedField(a)| - 1] == a && SpacedField(b)[|SPACED|..|SpacedField(b)| - 1] == b;
  }

  /** The rewrite leaves a body alone exactly when no rename applies. */
  lemma RewriteIdentityIff(body: Bytes, target: Bytes, incoming: Bytes)
    ensures RewriteModelName(body, target, incoming) == body <==> !RenameApplies(body, target, incoming)
  {
    if target != [] && incoming != [] && target != incoming {
      FieldInjective(target, incoming);
      ReplaceAllIdentityIff(body, CompactField(target), CompactField(incoming));
      ReplaceAllIdentityIff(body, SpacedField(target), SpacedField(incoming));
    }
  }

  lemma AtInConcat(pattern: Bytes, pre: Bytes, s: Bytes, post: Bytes)
    ensures Occurs(pattern, s) ==> Occurs(pattern, pre + s + post)
  {
    if Occurs(pattern, s) {
      var i: nat :| At(pattern, s, i);
      assert (pre + s + post)[|pre| + i..|pre| + i + |pattern|] == s[i..i + |pattern|];
      assert At(pattern, pre + s + post, |pre| + i);
    }
  }
}
