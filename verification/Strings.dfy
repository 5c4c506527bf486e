/**
 The order of strcmp.
 */
module Strings {
  predicate Less(a: string, b: string) {
    if a == "" then b != "" else b != "" && (a[0] < b[0] || (a[0] == b[0] && Less(a[1..], b[1..])))
  }

  /** The first n characters agree; then a ends, or goes on with a smaller character. */
  predicate LessAt(a: string, b: string, n: nat) {
    n <= |a| && n < |b| && a[..n] == b[..n] && (n == |a| || a[n] < b[n])
  }

  lemma SameHead(a: string, b: string, n: nat)
    requires LessAt(a, b, n)
    ensures n > 0 ==> a != "" && b != "" && a[0] == b[0]
  {
    if n > 0 { assert a[..n][0] == b[..n][0]; }
  }

  lemma {:induction false} LessIs(a: string, b: string)
    ensures Less(a, b) <==> exists n: nat :: LessAt(a, b, n)
    decreases |a|
  {
    if a == "" || b == "" || a[0] != b[0] {
      if Less(a, b) { assert LessAt(a, b, 0); }
      forall n: nat | LessAt(a, b, n) ensures Less(a, b) {
        SameHead(a, b, n);
      }
    } else {
      LessIs(a[1..], b[1..]);
      if Less(a, b) {
        var n: nat :| LessAt(a[1..], b[1..], n);
        assert a[..n + 1] == [a[0]] + a[1..][..n] && b[..n + 1] == [b[0]] + b[1..][..n];
        assert LessAt(a, b, n + 1);
      }
      forall n: nat | LessAt(a, b, n) ensures Less(a, b) {
        assert n > 0 && a[1..][..n - 1] == a[..n][1..] && b[1..][..n - 1] == b[..n][1..];
        assert LessAt(a[1..], b[1..], n - 1);
      }
    }
  }

  lemma {:induction false} Order(a: string, b: string, c: string)
    ensures !Less(a, a) && (Less(a, b) && Less(b, c) ==> Less(a, c))
    ensures Less(a, b) || a == b || Less(b, a)
    decreases |a|
  {
    if a != "" {
      Order(a[1..], if b == "" then "" else b[1..], if c == "" then "" else c[1..]);
      if b != "" && a[0] == b[0] && a[1..] == b[1..] { assert a == [a[0]] + a[1..] && b == [b[0]] + b[1..]; }
    }
  }
}
