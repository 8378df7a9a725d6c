// Endpoint names: a pod's name, "-rank-" and the decimal index of a target port
// (createEndpointNamespacedName in pkg/epp/datastore/datastore.go).
module EndpointNames {
  predicate IsDigit(c: char) { '0' <= c <= '9' }

  function Digit(d: nat): (c: char)
    requires d < 10
    ensures IsDigit(c)
  {
    ('0' as int + d) as char
  }

  function Itoa(n: nat): string {
    if n < 10 then [Digit(n)] else Itoa(n / 10) + [Digit(n % 10)]
  }

  function Atoi(s: string): int {
    if s == "" then 0 else 10 * Atoi(s[..|s| - 1]) + (s[|s| - 1] as int - '0' as int)
  }

  lemma {:induction false} AtoiItoa(n: nat)
    ensures Atoi(Itoa(n)) == n
    ensures Itoa(n) != "" && forall c :: c in Itoa(n) ==> IsDigit(c)
  {
    if n < 10 {
      assert [Digit(n)][..0] == "";
    } else {
      AtoiItoa(n / 10);
      assert Itoa(n)[..|Itoa(n)| - 1] == Itoa(n / 10);
    }
  }

  function TrailingDigits(s: string): nat {
    if s == "" || !IsDigit(s[|s| - 1]) then 0 else 1 + TrailingDigits(s[..|s| - 1])
  }

  lemma {:induction false} TrailingDigitsOf(front: string, digits: string)
    requires front != "" && !IsDigit(front[|front| - 1]) && forall c :: c in digits ==> IsDigit(c)
    ensures TrailingDigits(front + digits) == |digits|
    decreases |digits|
  {
    if digits == "" {
      assert front + digits == front;
    } else {
      var k := |digits| - 1;
      TrailingDigitsOf(front, digits[..k]);
      assert (front + digits)[..|front + digits| - 1] == front + digits[..k];
      assert digits[k] in digits;
    }
  }

  function EndpointName(pod: string, rank: nat): string {
    pod + "-rank-" + Itoa(rank)
  }

  /** No two pod ranks share a name, whatever the pods are called: `a-rank-1` at rank 2 is not `a` at any rank. */
  lemma EndpointNamesDistinct(p: string, i: nat, q: string, j: nat)
    ensures EndpointName(p, i) == EndpointName(q, j) <==> p == q && i == j
  {
    if EndpointName(p, i) == EndpointName(q, j) {
      AtoiItoa(i);
      AtoiItoa(j);
      var a, b := p + "-rank-", q + "-rank-";
      TrailingDigitsOf(a, Itoa(i));
      TrailingDigitsOf(b, Itoa(j));
      assert |a| == |b|;
      assert a == (a + Itoa(i))[..|a|] == (b + Itoa(j))[..|b|] == b;
      assert Itoa(i) == (a + Itoa(i))[|a|..] == (b + Itoa(j))[|b|..] == Itoa(j);
      assert p == a[..|a| - 6] == b[..|b| - 6] == q;
    }
  }
}
