/**
 The upstream release lock (`tools/opencodex_upstream.py`): strict versions, the choice of the
 release, the detection of a candidate lock and its admission. Timestamp, integrity and URL
 syntax and every network answer are parameters.
 */
module Upstream {

  import opened Wrappers

  datatype Fault =
    | InvalidLock
    | VersionTooLarge
    | DuplicateVersion
    | InvalidReleaseId
    | NoStableRelease
    | ReleaseRejected
    | Downgrade
    | IdentityChanged
    | NpmRejected
    | NpmNotPublished

  const UINT32_MAX := 0xFFFF_FFFF
  const UINT64_MAX := 0xFFFF_FFFF_FFFF_FFFF
  const INT64_MAX := 0x7FFF_FFFF_FFFF_FFFF
  const REPOSITORY := "lidge-jun/opencodex"
  const PACKAGE := "@bitkyc08/opencodex"
  const REGISTRY := "https://registry.npmjs.org"

  // ----- Strict versions --------------------------------------------------------------

  predicate Digit(c: char) { '0' <= c <= '9' }

  predicate AllDigits(s: string) { forall i :: 0 <= i < |s| ==> Digit(s[i]) }

  /** One component of a strict version: digits without a leading zero. */
  predicate StrictNumber(s: string) { s != "" && AllDigits(s) && (s[0] == '0' ==> |s| == 1) }

  function Number(s: string): nat
    requires AllDigits(s)
  {
    if s == "" then 0 else 10 * Number(s[..|s| - 1]) + (s[|s| - 1] as int - '0' as int)
  }

  datatype Parts = Parts(major: string, minor: string, patch: string)

  function Text(p: Parts): string { p.major + "." + (p.minor + "." + p.patch) }

  predicate StrictParts(p: Parts) { StrictNumber(p.major) && StrictNumber(p.minor) && StrictNumber(p.patch) }

  /** The length of the longest run of digits at the start. */
  function Digits(s: string): (n: nat)
    ensures n <= |s| && AllDigits(s[..n]) && (n < |s| ==> !Digit(s[n]))
  {
    if s == "" || !Digit(s[0]) then 0
    else
      var n := Digits(s[1..]);
      assert s[..n + 1] == [s[0]] + s[1..][..n];
      n + 1
  }

  /** Leading digits up to a dot, and what follows the dot. */
  function Head(s: string): (r: Option<(string, string)>)
    ensures r.Some? ==> s == r.value.0 + "." + r.value.1 && AllDigits(r.value.0)
  {
    var n := Digits(s);
    if n == |s| || s[n] != '.' then None else Some((s[..n], s[n + 1..]))
  }

  /** The components of a strict version text, when it is one. */
  function Split(s: string): (p: Option<Parts>)
    ensures p.Some? ==> Text(p.value) == s && StrictParts(p.value)
  {
    var major := Head(s);
    if major.None? then None
    else
      var minor := Head(major.value.1);
      if minor.None? then None
      else
        var p := Parts(major.value.0, minor.value.0, minor.value.1);
        if StrictParts(p) then Some(p) else None
  }

  datatype Version = Version(major: nat, minor: nat, patch: nat)

  predicate Small(s: string)
    requires AllDigits(s)
  {
    |s| <= 10 && Number(s) <= UINT32_MAX
  }

  /** `version_tuple`. */
  function VersionOf(s: string): Option<Version> {
    var p := Split(s);
    if p.None? || !Small(p.value.major) || !Small(p.value.minor) || !Small(p.value.patch) then None
    else Some(Version(Number(p.value.major), Number(p.value.minor), Number(p.value.patch)))
  }

  predicate Below(a: Version, b: Version) {
    || a.major < b.major
    || (a.major == b.major && a.minor < b.minor)
    || (a.major == b.major && a.minor == b.minor && a.patch < b.patch)
  }

  lemma {:induction false} DigitsOf(a: string, rest: string)
    requires AllDigits(a) && (rest == "" || !Digit(rest[0]))
    ensures Digits(a + rest) == |a|
  {
    var s := a + rest;
    assert forall i :: 0 <= i < |a| ==> s[i] == a[i];
    assert rest != "" ==> s[|a|] == rest[0];
    assert forall n :: |a| < n <= |s| ==> !AllDigits(s[..n]) by {
      forall n | |a| < n <= |s|
        ensures !AllDigits(s[..n])
      {
        assert s[..n][|a|] == rest[0];
      }
    }
  }

  lemma {:induction false} HeadOf(a: string, rest: string)
    requires AllDigits(a)
    ensures Head(a + "." + rest) == Some((a, rest))
  {
    hide Digits;
    assert a + "." + rest == a + ("." + rest);
    DigitsOf(a, "." + rest);
  }

  /** A text is recognised exactly when it is three strict numbers joined by dots. */
  lemma {:induction false} SplitIsComplete(p: Parts)
    requires StrictParts(p)
    ensures Split(Text(p)) == Some(p)
  {
    hide Head;
    HeadOf(p.major, p.minor + "." + p.patch);
    HeadOf(p.minor, p.patch);
  }

  lemma {:induction false} LongNumberIsLarge(a: string)
    requires StrictNumber(a) && |a| > 1
    ensures StrictNumber(a[..|a| - 1]) && Number(a[..|a| - 1]) >= 1 && Number(a) >= 10
  {
    var init := a[..|a| - 1];
    assert StrictNumber(init);
    if |init| > 1 {
      LongNumberIsLarge(init);
    } else {
      assert init[0] == a[0];
      assert init[..0] == "";
    }
  }

  /** Without leading zeros a number has one spelling. */
  lemma {:induction false} NumberInjective(a: string, b: string)
    requires StrictNumber(a) && StrictNumber(b) && Number(a) == Number(b)
    ensures a == b
    decreases |a|
  {
    if |a| > 1 {
      LongNumberIsLarge(a);
    } else {
      assert a[..0] == "";
    }
    if |b| > 1 {
      LongNumberIsLarge(b);
    } else {
      assert b[..0] == "";
    }
    assert |a| > 1 <==> |b| > 1;
    var x, y := a[..|a| - 1], b[..|b| - 1];
    assert Digit(a[|a| - 1]) && Digit(b[|b| - 1]);
    assert Number(x) == Number(y) && a[|a| - 1] == b[|b| - 1];
    if |a| > 1 {
      NumberInjective(x, y);
    }
    assert a == x + [a[|a| - 1]] && b == y + [b[|b| - 1]];
  }

  /** Two version texts with the same value are the same text. */
  lemma {:induction false} VersionInjective(s: string, t: string)
    requires VersionOf(s).Some? && VersionOf(s) == VersionOf(t)
    ensures s == t
  {
    hide Split, Number, StrictNumber, Text;
    var p, q := Split(s).value, Split(t).value;
    NumberInjective(p.major, q.major);
    NumberInjective(p.minor, q.minor);
    NumberInjective(p.patch, q.patch);
  }

  // ----- Choosing the release ------------------------------------------------------------

  /** One row of the release listing; `None` stands for a value of another type. */
  datatype Row = Row(draft: bool, prerelease: bool, tag: Option<string>, id: Option<int>)

  predicate IsCandidate(r: Row) {
    && !r.draft && !r.prerelease && r.tag.Some?
    && r.tag.value != "" && r.tag.value[0] == 'v' && Split(r.tag.value[1..]).Some?
  }

  function RowVersion(r: Row): Option<Version> {
    if r.tag.None? || r.tag.value == "" then None else VersionOf(r.tag.value[1..])
  }

  predicate ValidId(r: Row) { r.id.Some? && 0 < r.id.value <= INT64_MAX }

  function Candidates(rows: seq<Row>): seq<Row> {
    if rows == [] then []
    else
      var last := rows[|rows| - 1];
      Candidates(rows[..|rows| - 1]) + (if IsCandidate(last) then [last] else [])
  }

  /** What is wrong with the candidate at `k`, given those before it. */
  function FaultAt(rows: seq<Row>, k: nat): Option<Fault>
    requires k < |rows|
  {
    if RowVersion(rows[k]).None? then Some(VersionTooLarge)
    else if exists i :: 0 <= i < k && RowVersion(rows[i]) == RowVersion(rows[k]) then Some(DuplicateVersion)
    else if !ValidId(rows[k]) then Some(InvalidReleaseId)
    else None
  }

  predicate Faultless(rows: seq<Row>) {
    forall k :: 0 <= k < |rows| ==> FaultAt(rows, k).None?
  }

  /** The row is listed and its version is above every other one. */
  predicate IsMaximum(row: Row, rows: seq<Row>) {
    RowVersion(row).Some? && exists m :: 0 <= m < |rows| && IsMaximumAt(row, rows, m)
  }

  predicate IsMaximumAt(row: Row, rows: seq<Row>, m: nat)
    requires m < |rows| && RowVersion(row).Some?
  {
    && rows[m] == row
    && (forall k :: 0 <= k < |rows| && k != m ==>
      RowVersion(rows[k]).Some? && Below(RowVersion(rows[k]).value, RowVersion(row).value))
  }

  /** The first fault among the candidates is `f`. */
  predicate FirstFault(rows: seq<Row>, f: Fault) {
    exists k :: 0 <= k < |rows| && FaultAt(rows, k) == Some(f) && Faultless(rows[..k])
  }

  lemma {:induction false} CandidatesPrefix(rows: seq<Row>, n: nat)
    requires n <= |rows|
    ensures Candidates(rows[..n]) <= Candidates(rows)
    decreases |rows|
  {
    hide IsCandidate;
    if n < |rows| {
      CandidatesPrefix(rows[..|rows| - 1], n);
      assert rows[..|rows| - 1][..n] == rows[..n];
    } else {
      assert rows[..n] == rows;
    }
  }

  lemma {:induction false} CandidatesStep(rows: seq<Row>, n: nat)
    requires n < |rows|
    ensures Candidates(rows[..n + 1]) == Candidates(rows[..n]) + (if IsCandidate(rows[n]) then [rows[n]] else [])
    ensures Candidates(rows[..n + 1]) <= Candidates(rows)
  {
    hide IsCandidate;
    assert rows[..n + 1][..n] == rows[..n];
    CandidatesPrefix(rows, n + 1);
  }

  /** Whether the candidate at `k` is at fault depends only on what comes before it. */
  lemma {:induction false} FaultIsLocal(rows: seq<Row>, more: seq<Row>, k: nat)
    requires k < |rows| && rows <= more
    ensures FaultAt(rows, k) == FaultAt(more, k)
  {
    hide RowVersion, ValidId;
    assert forall i :: 0 <= i <= k ==> rows[i] == more[i];
    if i :| 0 <= i < k && RowVersion(rows[i]) == RowVersion(rows[k]) {
      assert RowVersion(more[i]) == RowVersion(more[k]);
    }
    if i :| 0 <= i < k && RowVersion(more[i]) == RowVersion(more[k]) {
      assert RowVersion(rows[i]) == RowVersion(rows[k]);
    }
  }

  lemma {:induction false} FaultStops(all: seq<Row>, done: seq<Row>, row: Row, f: Fault)
    requires done + [row] <= all && Faultless(done) && FaultAt(done + [row], |done|) == Some(f)
    ensures FirstFault(all, f) && !Faultless(all)
  {
    hide FaultAt;
    var k := |done|;
    FaultIsLocal(done + [row], all, k);
    assert all[..k] == done;
  }

  predicate SeenIs(seen: set<Version>, rows: seq<Row>) {
    && (forall k :: 0 <= k < |rows| ==> RowVersion(rows[k]).Some? && RowVersion(rows[k]).value in seen)
    && (forall v :: v in seen ==> exists k :: 0 <= k < |rows| && RowVersion(rows[k]) == Some(v))
  }

  lemma {:induction false} SeenDecides(seen: set<Version>, rows: seq<Row>, row: Row)
    requires SeenIs(seen, rows) && RowVersion(row).Some?
    ensures var f := FaultAt(rows + [row], |rows|);
            f == if RowVersion(row).value in seen then Some(DuplicateVersion)
                 else if !ValidId(row) then Some(InvalidReleaseId) else None
  {
    hide RowVersion, ValidId;
    var more := rows + [row];
    if RowVersion(row).value in seen {
      var k :| 0 <= k < |rows| && RowVersion(rows[k]) == RowVersion(row);
      assert more[k] == rows[k];
    }
  }

  lemma {:induction false} SeenMore(seen: set<Version>, rows: seq<Row>, row: Row)
    requires SeenIs(seen, rows) && Faultless(rows) && RowVersion(row).Some? && FaultAt(rows + [row], |rows|).None?
    ensures SeenIs(seen + {RowVersion(row).value}, rows + [row]) && Faultless(rows + [row])
  {
    hide RowVersion, FaultAt;
    var more, all := rows + [row], seen + {RowVersion(row).value};
    forall v | v in all
      ensures exists k :: 0 <= k < |more| && RowVersion(more[k]) == Some(v)
    {
      if v in seen {
        var k :| 0 <= k < |rows| && RowVersion(rows[k]) == Some(v);
        assert more[k] == rows[k];
      } else {
        assert more[|rows|] == row;
      }
    }
    forall k | 0 <= k < |more|
      ensures FaultAt(more, k).None?
    {
      if k < |rows| {
        FaultIsLocal(rows, more, k);
      }
    }
  }

  lemma {:induction false} MaximumMore(best: Option<Row>, rows: seq<Row>, row: Row, seen: set<Version>)
    requires SeenIs(seen, rows) && RowVersion(row).Some? && RowVersion(row).value !in seen
    requires if rows == [] then best.None? else best.Some? && IsMaximum(best.value, rows)
    ensures var higher := best.None? || Below(RowVersion(best.value).value, RowVersion(row).value);
            var next := if higher then row else best.value;
            IsMaximum(next, rows + [row])
  {
    hide RowVersion;
    var more := rows + [row];
    var top := |rows|;
    if best.None? {
      assert IsMaximumAt(row, more, top);
    } else {
      var m :| 0 <= m < |rows| && IsMaximumAt(best.value, rows, m);
      assert RowVersion(rows[m]).value in seen;
      if Below(RowVersion(best.value).value, RowVersion(row).value) {
        assert forall k :: 0 <= k < |more| && k != top ==> more[k] == rows[k];
        assert IsMaximumAt(row, more, top);
      } else {
        assert more[m] == best.value;
        assert Below(RowVersion(row).value, RowVersion(best.value).value);
        assert forall k :: 0 <= k < |more| && k != m ==> more[k] == (if k == top then row else rows[k]);
        assert IsMaximumAt(best.value, more, m);
      }
    }
  }

  /** `choose_release`. */
  method ChooseRelease(rows: seq<Row>) returns (r: Result<Row, Fault>)
    ensures r.Ok? <==> Faultless(Candidates(rows)) && Candidates(rows) != []
    ensures r.Ok? ==> IsMaximum(r.value, Candidates(rows)) && IsCandidate(r.value) && ValidId(r.value)
    ensures r == Err(NoStableRelease) <==> Candidates(rows) == []
    ensures r.Err? && Candidates(rows) != [] ==> FirstFault(Candidates(rows), r.error)
  {
    hide IsCandidate, RowVersion, ValidId, Faultless, FaultAt, SeenIs, IsMaximum, FirstFault, Below;
    var selected: Option<Row> := None;
    var seen: set<Version> := {};
    ghost var all, done := Candidates(rows), [];
    assert SeenIs(seen, done) && Faultless(done) by { NothingYet(); }
    for n := 0 to |rows|
      invariant done == Candidates(rows[..n])
      invariant SeenIs(seen, done) && Faultless(done)
      invariant if done == [] then selected.None? else selected.Some? && IsMaximum(selected.value, done)
      invariant selected.Some? ==>
        IsCandidate(selected.value) && ValidId(selected.value) && RowVersion(selected.value).Some?
    {
      var row := rows[n];
      CandidatesStep(rows, n);
      if !IsCandidate(row) {
        continue;
      }
      var version := RowVersion(row);
      if version.None? {
        TooLarge(done, row);
        FaultStops(all, done, row, VersionTooLarge);
        return Err(VersionTooLarge);
      }
      SeenDecides(seen, done, row);
      if version.value in seen {
        FaultStops(all, done, row, DuplicateVersion);
        return Err(DuplicateVersion);
      }
      if !ValidId(row) {
        FaultStops(all, done, row, InvalidReleaseId);
        return Err(InvalidReleaseId);
      }
      MaximumMore(selected, done, row, seen);
      SeenMore(seen, done, row);
      seen := seen + {version.value};
      if selected.None? || Below(RowVersion(selected.value).value, version.value) {
        selected := Some(row);
      }
      done := done + [row];
    }
    assert rows[..|rows|] == rows;
    if selected.None? {
      return Err(NoStableRelease);
    }
    r := Ok(selected.value);
  }

  lemma {:induction false} NothingYet()
    ensures SeenIs({}, []) && Faultless([])
  {
  }

  lemma {:induction false} TooLarge(done: seq<Row>, row: Row)
    requires RowVersion(row).None?
    ensures FaultAt(done + [row], |done|) == Some(VersionTooLarge)
  {
    hide RowVersion;
    assert (done + [row])[|done|] == row;
  }

  /** There is only one maximum. */
  lemma {:induction false} MaximumIsUnique(a: Row, b: Row, rows: seq<Row>)
    requires IsMaximum(a, rows) && IsMaximum(b, rows)
    ensures a == b
  {
    hide RowVersion;
    var m :| 0 <= m < |rows| && IsMaximumAt(a, rows, m);
    var n :| 0 <= n < |rows| && IsMaximumAt(b, rows, n);
    SamePlace(a, m, b, n, rows);
  }

  lemma {:induction false} SamePlace(a: Row, m: nat, b: Row, n: nat, rows: seq<Row>)
    requires m < |rows| && n < |rows| && RowVersion(a).Some? && RowVersion(b).Some?
    requires IsMaximumAt(a, rows, m) && IsMaximumAt(b, rows, n)
    ensures m == n
  {
    hide RowVersion;
  }
}
