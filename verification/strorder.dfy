/** Python's ordering of `str` values: lexicographic by code point, a proper
    prefix before any extension of it. Both `sort_values` calls and the
    group keys of `groupby` order strings this way. */
module StrOrder {

  /** `a` sorts strictly before `b`. */
  predicate Less(a: string, b: string) {
    if |a| == 0 then |b| > 0
    else if |b| == 0 then false
    else a[0] < b[0] || (a[0] == b[0] && Less(a[1..], b[1..]))
  }

  /** `a` does not sort after `b`. */
  predicate NotAfter(a: string, b: string) {
    !Less(b, a)
  }

  lemma {:induction false} LessIrreflexive(a: string)
    ensures !Less(a, a)
  {
    if |a| > 0 {
      LessIrreflexive(a[1..]);
    }
  }

  lemma {:induction false} LessTransitive(a: string, b: string, c: string)
    requires Less(a, b) && Less(b, c)
    ensures Less(a, c)
  {
    if |a| > 0 && |b| > 0 && |c| > 0 && a[0] == b[0] == c[0] {
      LessTransitive(a[1..], b[1..], c[1..]);
    }
  }

  /** Distinct strings are comparable, in exactly one direction. */
  lemma {:induction false} LessTrichotomy(a: string, b: string)
    ensures a == b || Less(a, b) || Less(b, a)
    ensures !(Less(a, b) && Less(b, a))
  {
    if |a| > 0 && |b| > 0 && a[0] == b[0] {
      LessTrichotomy(a[1..], b[1..]);
      assert a == [a[0]] + a[1..] && b == [b[0]] + b[1..];
    }
  }

  /** `NotAfter` is the reflexive closure of `Less`. */
  lemma NotAfterIsLessOrEqual(a: string, b: string)
    ensures NotAfter(a, b) <==> a == b || Less(a, b)
  {
    LessTrichotomy(a, b);
    LessIrreflexive(a);
  }

  lemma NotAfterTransitive(a: string, b: string, c: string)
    requires NotAfter(a, b) && NotAfter(b, c)
    ensures NotAfter(a, c)
  {
    NotAfterIsLessOrEqual(a, b);
    NotAfterIsLessOrEqual(b, c);
    NotAfterIsLessOrEqual(a, c);
    if Less(a, b) && Less(b, c) {
      LessTransitive(a, b, c);
    }
  }
}
