/** Target-version gating: `settings.min_version` is a `(major, minor)`
    tuple compared with Python's tuple `<`. */
module Versions {

  datatype Version = Version(major: int, minor: int)

  /** `a < b` on two `(major, minor)` tuples. */
  predicate Lt(a: Version, b: Version) {
    a.major < b.major || (a.major == b.major && a.minor < b.minor)
  }

  /** Python's `<` on tuples of ints in general: the first differing item
      decides, and a proper prefix is smaller. */
  predicate TupleLt(a: seq<int>, b: seq<int>) {
    if |a| == 0 then |b| > 0
    else if |b| == 0 then false
    else if a[0] != b[0] then a[0] < b[0]
    else TupleLt(a[1..], b[1..])
  }

  function AsTuple(v: Version): (t: seq<int>)
    ensures |t| == 2 && t[0] == v.major && t[1] == v.minor
  {
    [v.major, v.minor]
  }

  /** The pair comparison is Python's tuple comparison, in both directions. */
  lemma LtIsTupleLt(a: Version, b: Version)
    ensures Lt(a, b) <==> TupleLt(AsTuple(a), AsTuple(b))
  {
    var ta, tb := AsTuple(a), AsTuple(b);
    assert ta[1..] == [a.minor] && tb[1..] == [b.minor];
    assert !TupleLt(ta[1..][1..], tb[1..][1..]) by {
      assert ta[1..][1..] == [] && tb[1..][1..] == [];
    }
    assert TupleLt(ta[1..], tb[1..]) <==> a.minor < b.minor;
  }

  /** The version the fractions, asyncio and base64 rules require. */
  const Py39 := Version(3, 9)

  /** `main` always runs with the target version fixed at 3.12. */
  const Py312 := Version(3, 12)

  /** A rule gated on 3.9 is enabled by the fixed 3.12 target, and disabled
      by the 3.8 target the test-suite uses. */
  lemma GateAtFixedTargets()
    ensures !Lt(Py312, Py39)
    ensures Lt(Version(3, 8), Py39)
  {
  }
}
