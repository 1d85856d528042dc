// Workflow instance ids: `source-actor-<source>-<bucket>`, one bucket per safety window.
module WorkflowIds {
  import opened Strings

  const SAFETY_WINDOW_MS: nat := 15 * 60 * 1000

  function Bucket(firedAt: nat): nat { firedAt / SAFETY_WINDOW_MS }

  function IdText(source: string, bucket: nat): string {
    "source-actor-" + source + "-" + Decimal(bucket)
  }

  function WorkflowId(source: string, firedAt: nat): string { IdText(source, Bucket(firedAt)) }

  // The id text determines both the source and the bucket, whatever characters the source id has.
  lemma IdTextInjective(s: string, a: nat, t: string, b: nat)
    ensures IdText(s, a) == IdText(t, b) <==> s == t && a == b
  {
    if IdText(s, a) == IdText(t, b) {
      SuffixUnique("source-actor-" + s, Decimal(a), "source-actor-" + t, Decimal(b));
      DecimalValue(a);
      DecimalValue(b);
      assert s == ("source-actor-" + s)[13..] == ("source-actor-" + t)[13..] == t;
    }
  }

  // The last dash of the id is the one before the bucket.
  lemma LastDash(p: string, x: string, whole: string)
    requires whole == p + "-" + x && forall c :: c in x ==> IsDigit(c)
    ensures whole[|p|] == '-' && forall k :: |p| < k < |whole| ==> whole[k] != '-'
  {
    forall k | |p| < k < |whole| ensures whole[k] != '-' {
      assert whole[k] == x[k - |p| - 1] && x[k - |p| - 1] in x;
    }
  }

  lemma SuffixUnique(p: string, x: string, q: string, y: string)
    requires p + "-" + x == q + "-" + y
    requires (forall c :: c in x ==> IsDigit(c)) && (forall c :: c in y ==> IsDigit(c))
    ensures p == q && x == y
  {
    var whole := p + "-" + x;
    LastDash(p, x, whole);
    LastDash(q, y, whole);
    assert |p| == |q|;
    assert p == whole[..|p|] && q == whole[..|q|] && x == whole[|p| + 1..] && y == whole[|q| + 1..];
  }

  // Two fires at least a window apart never share a bucket.
  lemma WindowSeparatesBuckets(a: nat, b: nat)
    requires b - a >= 900_000
    ensures Bucket(a) < Bucket(b)
  {
  }
}
