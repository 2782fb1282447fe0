/**
 The order of strict versions, read off their digits, and what a next lock can always be.
 */
module UpstreamOrder {

  import opened Upstream
  import opened UpstreamLock
  import opened Wrappers

  // ----- Numbers by their digits ---------------------------------------------------

  function Pow10(n: nat): (r: nat)
    ensures r >= 1
  {
    if n == 0 then 1 else 10 * Pow10(n - 1)
  }

  lemma {:induction false} Pow10Grows(m: nat, n: nat)
    requires m <= n
    ensures Pow10(m) <= Pow10(n)
    decreases n
  {
    if m < n { Pow10Grows(m, n - 1); }
  }

  lemma {:induction false} NumberIsShort(a: string)
    requires AllDigits(a)
    ensures Number(a) < Pow10(|a|)
  {
    if a != "" {
      NumberIsShort(a[..|a| - 1]);
      assert Digit(a[|a| - 1]);
    }
  }

  lemma {:induction false} NumberIsLong(a: string)
    requires StrictNumber(a) && |a| > 1
    ensures Number(a) >= Pow10(|a| - 1)
  {
    var init := a[..|a| - 1];
    LongNumberIsLarge(a);
    if |init| > 1 {
      NumberIsLong(init);
    }
  }

  /** The first digit that differs is lower. */
  predicate LowerAt(a: string, b: string, k: nat)
    requires |a| == |b|
  {
    k < |a| && a[..k] == b[..k] && a[k] < b[k]
  }

  /** Shorter, or as long and lower at the first difference. */
  ghost predicate DigitsBelow(a: string, b: string) {
    |a| < |b| || (|a| == |b| && exists k: nat :: LowerAt(a, b, k))
  }

  lemma {:induction false} SameLengthOrder(a: string, b: string)
    requires AllDigits(a) && AllDigits(b) && |a| == |b|
    ensures Number(a) < Number(b) <==> exists k: nat :: LowerAt(a, b, k)
    ensures Number(a) == Number(b) <==> a == b
    decreases |a|
  {
    if a != "" {
      var last := |a| - 1;
      var x, y := a[..last], b[..last];
      assert Digit(a[last]) && Digit(b[last]);
      assert a == x + [a[last]] && b == y + [b[last]];
      SameLengthOrder(x, y);
      SnocOrder(a, b);
    }
  }

  /** One more digit decides only between equal beginnings. */
  lemma {:induction false} SnocOrder(a: string, b: string)
    requires |a| == |b| > 0
    ensures var last := |a| - 1; var x, y := a[..last], b[..last];
            (exists k: nat :: LowerAt(a, b, k)) <==>
              (exists k: nat :: LowerAt(x, y, k)) || (x == y && a[last] < b[last])
  {
    var last := |a| - 1;
    var x, y := a[..last], b[..last];
    if k: nat :| LowerAt(a, b, k) {
      if k < last {
        assert x[..k] == a[..k] && y[..k] == b[..k];
        assert LowerAt(x, y, k);
      }
    }
    if k: nat :| LowerAt(x, y, k) {
      assert x[..k] == a[..k] && y[..k] == b[..k];
      assert LowerAt(a, b, k);
    }
    if x == y && a[last] < b[last] {
      assert LowerAt(a, b, last);
    }
  }

  /** Numbers without leading zeros compare as their digits do. */
  lemma {:induction false} NumberOrder(a: string, b: string)
    requires StrictNumber(a) && StrictNumber(b)
    ensures Number(a) < Number(b) <==> DigitsBelow(a, b)
  {
    hide Number, LowerAt;
    if |a| == |b| {
      SameLengthOrder(a, b);
    } else if |a| < |b| {
      ShorterIsLess(a, b);
    } else {
      ShorterIsLess(b, a);
    }
  }

  lemma {:induction false} ShorterIsLess(a: string, b: string)
    requires StrictNumber(a) && StrictNumber(b) && |a| < |b|
    ensures Number(a) < Number(b)
  {
    hide Number;
    NumberIsShort(a);
    NumberIsLong(b);
    Pow10Grows(|a|, |b| - 1);
  }

  /** The bound on the length is implied by the bound on the value. */
  lemma {:induction false} SmallIsNumeric(a: string)
    requires StrictNumber(a)
    ensures Small(a) <==> Number(a) <= UINT32_MAX
  {
    hide Number;
    if |a| > 10 {
      NumberIsLong(a);
      Pow10Grows(10, |a| - 1);
      TenDigits();
    }
  }

  lemma {:induction false} TenDigits()
    ensures Pow10(10) == 10_000_000_000
  {
    assert Pow10(5) == 100_000;
    assert Pow10(8) == 1000 * Pow10(5);
  }

  // ----- Versions by their text -------------------------------------------------------

  /** The text joins three numbers below 2^32 without leading zeros, and these are the version. */
  predicate Writes(s: string, p: Parts, v: Version) {
    && s == Text(p) && StrictParts(p)
    && v == Version(Number(p.major), Number(p.minor), Number(p.patch))
    && v.major <= UINT32_MAX && v.minor <= UINT32_MAX && v.patch <= UINT32_MAX
  }

  /** Which texts are versions, and which version they are. */
  lemma {:induction false} VersionOfText(s: string, v: Version)
    ensures VersionOf(s) == Some(v) <==> exists p :: Writes(s, p, v)
  {
    hide Split, Text, Number, Small;
    if VersionOf(s) == Some(v) {
      var p := Split(s).value;
      PartsAreSmall(p);
      assert Writes(s, p, v);
    }
    if p :| Writes(s, p, v) {
      SplitIsComplete(p);
      PartsAreSmall(p);
    }
  }

  lemma {:induction false} PartsAreSmall(p: Parts)
    requires StrictParts(p)
    ensures Small(p.major) <==> Number(p.major) <= UINT32_MAX
    ensures Small(p.minor) <==> Number(p.minor) <= UINT32_MAX
    ensures Small(p.patch) <==> Number(p.patch) <= UINT32_MAX
  {
    hide Number, StrictNumber, Small;
    SmallIsNumeric(p.major);
    SmallIsNumeric(p.minor);
    SmallIsNumeric(p.patch);
  }

  /** The first part that differs decides, by its digits; the major part comes first. */
  ghost predicate TextBelow(p: Parts, q: Parts) {
    || DigitsBelow(p.major, q.major)
    || (p.major == q.major && DigitsBelow(p.minor, q.minor))
    || (p.major == q.major && p.minor == q.minor && DigitsBelow(p.patch, q.patch))
  }

  /** The order on versions is that of their texts, part by part. */
  lemma {:induction false} VersionOrder(p: Parts, q: Parts)
    requires StrictParts(p) && StrictParts(q) && VersionOf(Text(p)).Some? && VersionOf(Text(q)).Some?
    ensures Below(VersionOf(Text(p)).value, VersionOf(Text(q)).value) <==> TextBelow(p, q)
  {
    hide Split, Text, Number, StrictNumber, Small, DigitsBelow;
    SplitIsComplete(p);
    SplitIsComplete(q);
    PartOrder(p.major, q.major);
    PartOrder(p.minor, q.minor);
    PartOrder(p.patch, q.patch);
  }

  lemma {:induction false} PartOrder(a: string, b: string)
    requires StrictNumber(a) && StrictNumber(b)
    ensures Number(a) < Number(b) <==> DigitsBelow(a, b)
    ensures Number(a) == Number(b) <==> a == b
  {
    hide Number, DigitsBelow;
    NumberOrder(a, b);
    if Number(a) == Number(b) {
      NumberInjective(a, b);
    }
  }

  // ----- The candidates of a listing ------------------------------------------------------

  /** The row is a published stable release whose tag is a strict version. */
  ghost predicate Publishes(r: Row) {
    !r.draft && !r.prerelease && exists p :: StrictParts(p) && r.tag == Some("v" + Text(p))
  }

  lemma {:induction false} CandidateExactly(r: Row)
    ensures IsCandidate(r) <==> Publishes(r)
  {
    hide Split, StrictNumber, Text;
    if IsCandidate(r) {
      var p := Split(r.tag.value[1..]).value;
      assert r.tag.value == "v" + Text(p);
    }
    if p :| StrictParts(p) && r.tag == Some("v" + Text(p)) {
      assert ("v" + Text(p))[1..] == Text(p);
      SplitIsComplete(p);
    }
  }

  /** The candidates are exactly the rows that publish one, in their order. */
  lemma {:induction false} CandidatesExactly(rows: seq<Row>, r: Row)
    ensures r in Candidates(rows) <==> r in rows && Publishes(r)
  {
    hide IsCandidate, Publishes;
    if rows != [] {
      var init, last := rows[..|rows| - 1], rows[|rows| - 1];
      CandidatesExactly(init, r);
      CandidateExactly(r);
      assert rows == init + [last];
      assert r in rows <==> r in init || r == last;
    }
  }

  /** So the maximum of the candidates is no lower than any release the listing publishes. */
  lemma {:induction false} NothingHigher(rows: seq<Row>, best: Row, r: Row)
    requires IsMaximum(best, Candidates(rows)) && r in rows && Publishes(r)
    ensures Publishes(best) && best in rows
    ensures r == best || (RowVersion(r).Some? && Below(RowVersion(r).value, RowVersion(best).value))
  {
    hide RowVersion, Candidates, Publishes, Below;
    CandidatesExactly(rows, r);
    var all := Candidates(rows);
    var m :| 0 <= m < |all| && IsMaximumAt(best, all, m);
    assert best in all;
    CandidatesExactly(rows, best);
    var k :| 0 <= k < |all| && all[k] == r;
  }

  /** The answers of `detect` that do not depend on an artifact. */
  lemma {:induction false} DetectWithoutArtifact(current: Lock, listed: Row, g: Release, npm: Npm, registry: string,
                                                 h: Host)
    requires ValidId(listed)
    ensures var r := DetectFrom(current, listed, g, npm, registry, h); var valid := ValidLock(current, registry, h);
            && (r == Err(InvalidLock) <==> !valid)
            && (r == Err(ReleaseRejected) <==> valid && !Verified(listed, g, h))
            && (valid && Verified(listed, g, h) && !npm.Artifact? ==>
                  var detected, before := VersionOf(g.tag[1..]).value, LockVersion(current);
                  var same := detected == before && SameGithubIdentity(current, g);
                  && (r == Err(Downgrade) <==> Below(detected, before))
                  && (r == Err(IdentityChanged) <==> detected == before && !same)
                  && (r == Err(NpmNotPublished) <==> npm.Awaiting? && same)
                  && (r == Ok(AwaitingNpm) <==> npm.Awaiting? && Below(before, detected))
                  && (r == Err(NpmRejected) <==> npm.Rejected? && (same || Below(before, detected))))
  {
    hide VersionOf, LowerSha, Origin, Public, Genuine, ValidLock;
    if ValidLock(current, registry, h) && Verified(listed, g, h) {
      ValidVersion(current, registry, h);
      VersionsOrdered(LockVersion(current), VersionOf(g.tag[1..]).value);
      if npm.Artifact? && Genuine(g, npm, registry, h) {
        CandidateIsValid(listed, g, npm, registry, h);
      }
    }
  }

  // ----- The next lock ------------------------------------------------------------------

  /** A lock can be repackaged, with only its image revision raised by one, until that is at its limit. */
  lemma {:induction false} RepackageIsAdmitted(l: Lock, h: Host)
    requires ValidLock(l, REGISTRY, h)
    ensures Admits(l, l.(imageRevision := l.imageRevision + 1), h) <==> l.imageRevision < UINT64_MAX
  {
    hide VersionOf, LowerSha, Origin;
    VersionsOrdered(LockVersion(l), LockVersion(l));
  }

  /** Along a chain every new version starts at image revision one, above the version before it. */
  lemma {:induction false} NewVersionStartsAtOne(locks: seq<Lock>, h: Host, k: nat)
    requires Chain(locks, h) && 0 < k < |locks| && locks[k].version != locks[k - 1].version
    ensures locks[k].imageRevision == 1
    ensures VersionOf(locks[k - 1].version).Some? && VersionOf(locks[k].version).Some?
    ensures Below(LockVersion(locks[k - 1]), LockVersion(locks[k]))
  {
    hide VersionOf, LowerSha, Origin;
    assert Admits(locks[k - 1], locks[k - 1 + 1], h);
    if LockVersion(locks[k - 1]) == LockVersion(locks[k]) {
      VersionInjective(locks[k - 1].version, locks[k].version);
    }
  }
}
