// Failure-carrying datatypes shared by the other modules.
module Wrappers {

  datatype Option<+T> = None | Some(value: T)

  datatype Result<+T, +E> = Ok(value: T) | Err(error: E)
}

// Facts about sequences that proofs name instead of leaving them to be found.
module Sequences {

  lemma ConcatAssoc<T>(x: seq<T>, y: seq<T>, z: seq<T>)
    ensures x + (y + z) == (x + y) + z
  {
  }

  /** How often `x` occurs in `s`. */
  function Occ<T(==)>(s: seq<T>, x: T): nat {
    if s == [] then 0 else Occ(s[..|s| - 1], x) + if s[|s| - 1] == x then 1 else 0
  }

  lemma {:induction false} OccMember<T>(s: seq<T>, x: T)
    ensures Occ(s, x) > 0 <==> x in s
    decreases |s|
  {
    if s != [] {
      OccMember(s[..|s| - 1], x);
      assert s == s[..|s| - 1] + [s[|s| - 1]];
    }
  }

  lemma {:induction false} OccConcat<T>(s: seq<T>, t: seq<T>, x: T)
    ensures Occ(s + t, x) == Occ(s, x) + Occ(t, x)
    decreases |t|
  {
    if t == [] {
      assert s + t == s;
    } else {
      OccConcat(s, t[..|t| - 1], x);
      assert (s + t)[..|s + t| - 1] == s + t[..|t| - 1];
    }
  }

  lemma OccOne<T>(y: T, x: T)
    ensures Occ([y], x) == if y == x then 1 else 0
  {
    assert [y][..0] == [];
  }

  lemma OccSnoc<T>(s: seq<T>, y: T, x: T)
    ensures Occ(s + [y], x) == Occ(s, x) + if y == x then 1 else 0
  {
    assert (s + [y])[..|s|] == s;
  }

  /** The parts of a string between the occurrences of `sep`. */
  function Split(x: string, sep: char): (r: seq<string>)
    ensures r != []
  {
    if x == "" then [""]
    else
      var front, last := Split(x[..|x| - 1], sep), x[|x| - 1];
      if last == sep then front + [""] else front[..|front| - 1] + [front[|front| - 1] + [last]]
  }

  lemma {:induction false} SplitFree(x: string, sep: char)
    requires sep !in x
    ensures Split(x, sep) == [x]
    decreases |x|
  {
    if x != "" {
      SplitFree(x[..|x| - 1], sep);
      assert x == x[..|x| - 1] + [x[|x| - 1]];
    }
  }

  /** The last part gets one more character. */
  function LastGrown(parts: seq<string>, c: char): seq<string>
    requires parts != []
  {
    parts[..|parts| - 1] + [parts[|parts| - 1] + [c]]
  }

  lemma LastGrownConcat(a: seq<string>, b: seq<string>, c: char)
    requires b != []
    ensures LastGrown(a + b, c) == a + LastGrown(b, c)
  {
  }

  lemma SplitMore(x: string, c: char, sep: char)
    ensures Split(x + [c], sep) == if c == sep then Split(x, sep) + [""] else LastGrown(Split(x, sep), c)
  {
    assert (x + [c])[..|x|] == x;
  }

  lemma SplitEmpty(sep: char)
    ensures Split("", sep) == [""]
  {
  }

  lemma {:induction false} SplitConcat(a: string, b: string, sep: char)
    ensures Split(a + [sep] + b, sep) == Split(a, sep) + Split(b, sep)
    decreases |b|
  {
    hide Split, LastGrown;
    if b == "" {
      assert a + [sep] + b == a + [sep];
      SplitMore(a, sep, sep);
      SplitEmpty(sep);
    } else {
      var front, c := b[..|b| - 1], b[|b| - 1];
      var before := a + [sep] + front;
      SplitConcat(a, front, sep);
      assert b == front + [c] && a + [sep] + b == before + [c];
      SplitMore(before, c, sep);
      SplitMore(front, c, sep);
      LastGrownConcat(Split(a, sep), Split(front, sep), c);
      ConcatAssoc(Split(a, sep), Split(front, sep), [""]);
    }
  }
}
