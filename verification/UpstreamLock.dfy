/**
 The release lock itself: `validate_lock`, the decision part of `detect`, `same_upstream_identity`
 and `apply_candidate` (`tools/opencodex_upstream.py`), and what holds of every chain of locks
 that were applied one after another.
 */
module UpstreamLock {

  import opened Upstream
  import opened Wrappers

  // ----- Locks ------------------------------------------------------------------------

  datatype Lock = Lock(
    imageRevision: int,
    repository: string,
    releaseId: int, tag: string, publishedAt: string,
    version: string,
    revision: string,
    npmPackage: string, npmVersion: string, integrity: string, tarball: string)

  /** Syntax checks of other libraries; the last one takes the URL, the version and the allowed origin. */
  datatype Host = Host(timestamp: string -> bool, integrity: string -> bool, tarball: (string, string, string) -> bool)

  predicate LowerSha(s: string) {
    |s| == 40 && forall i :: 0 <= i < |s| ==> '0' <= s[i] <= '9' || 'a' <= s[i] <= 'f'
  }

  /** The text up to the first slash, question mark or hash sign. */
  function Authority(s: string): string {
    if s == "" || s[0] == '/' || s[0] == '?' || s[0] == '#' then "" else [s[0]] + Authority(s[1..])
  }

  /** Scheme and network location of a URL: all up to the end of what follows its first two slashes. */
  function Origin(url: string): string {
    if url == "" then ""
    else if "//" <= url then "//" + Authority(url[2..])
    else [url[0]] + Origin(url[1..])
  }

  /** The registry as the network client keeps it, without slashes at its end. */
  function Trimmed(registry: string): string {
    if registry != "" && registry[|registry| - 1] == '/' then Trimmed(registry[..|registry| - 1]) else registry
  }

  /** Only against the public registry is npm provenance verified. */
  predicate Public(registry: string) { Trimmed(registry) == REGISTRY }

  predicate HasAuthority(url: string) {
    exists i :: 0 <= i <= |url| - 2 && url[i] == '/' && url[i + 1] == '/'
  }

  lemma {:induction false} AuthoritySlash(s: string)
    ensures Authority(s + "/") == Authority(s)
  {
    if s != "" {
      assert (s + "/")[1..] == s[1..] + "/";
      AuthoritySlash(s[1..]);
    }
  }

  lemma {:induction false} OriginSlash(url: string)
    requires HasAuthority(url)
    ensures Origin(url + "/") == Origin(url) && HasAuthority(url + "/")
  {
    var longer := url + "/";
    var i :| 0 <= i <= |url| - 2 && url[i] == '/' && url[i + 1] == '/';
    assert longer[i] == '/' && longer[i + 1] == '/';
    assert longer[1..] == url[1..] + "/" && longer[2..] == url[2..] + "/";
    assert "//" <= url <==> url[0] == '/' && url[1] == '/';
    assert "//" <= longer <==> longer[0] == '/' && longer[1] == '/';
    if "//" <= url {
      AuthoritySlash(url[2..]);
    } else {
      assert url[1..][i - 1] == '/' && url[1..][i - 1 + 1] == '/';
      OriginSlash(url[1..]);
    }
  }

  /** Slashes at the end of a URL that has a network location do not change its origin. */
  lemma {:induction false} TrimmedOrigin(registry: string)
    requires HasAuthority(Trimmed(registry))
    ensures HasAuthority(registry) && Origin(registry) == Origin(Trimmed(registry))
  {
    hide Origin, HasAuthority;
    if registry != "" && registry[|registry| - 1] == '/' {
      var shorter := registry[..|registry| - 1];
      TrimmedOrigin(shorter);
      OriginSlash(shorter);
      assert shorter + "/" == registry;
    }
  }

  /** Every spelling of the public registry has its origin. */
  lemma {:induction false} PublicOrigin(registry: string)
    requires Public(registry)
    ensures Origin(registry) == Origin(REGISTRY)
  {
    hide Origin;
    assert HasAuthority(REGISTRY) by {
      assert REGISTRY[6] == '/' && REGISTRY[6 + 1] == '/';
    }
    TrimmedOrigin(registry);
  }

  /** `validate_lock` against one registry. */
  predicate ValidLock(l: Lock, registry: string, h: Host) {
    && 1 <= l.imageRevision <= UINT64_MAX
    && l.repository == REPOSITORY
    && VersionOf(l.version).Some?
    && LowerSha(l.revision)
    && 0 < l.releaseId <= INT64_MAX
    && l.tag == "v" + l.version
    && h.timestamp(l.publishedAt)
    && l.npmPackage == PACKAGE && l.npmVersion == l.version
    && h.integrity(l.integrity)
    && h.tarball(l.tarball, l.version, Origin(registry))
  }

  function LockVersion(l: Lock): Version
    requires VersionOf(l.version).Some?
  {
    VersionOf(l.version).value
  }

  /** `same_upstream_identity`. */
  predicate SameIdentity(a: Lock, b: Lock) { a.(imageRevision := 0) == b.(imageRevision := 0) }

  // ----- Detection ------------------------------------------------------------------------

  /** The selected release as GitHub answers for it; `consistent` covers the tag, target and package checks. */
  datatype Release = Release(
    id: int, tag: string, stable: bool, immutable: bool, publishedAt: string, revision: string, consistent: bool)

  datatype Npm = Awaiting | Rejected | Artifact(integrity: string, tarball: string)

  datatype Status = UpToDate | AwaitingNpm | UpdateAvailable(candidate: Lock)

  predicate Verified(listed: Row, g: Release, h: Host) {
    && listed.id == Some(g.id) && listed.tag == Some(g.tag)
    && g.stable && g.immutable && g.consistent
    && g.tag != "" && g.tag[0] == 'v' && VersionOf(g.tag[1..]).Some?
    && h.timestamp(g.publishedAt) && LowerSha(g.revision)
  }

  function CandidateLock(g: Release, npm: Npm): Lock
    requires npm.Artifact? && g.tag != ""
  {
    Lock(1, REPOSITORY, g.id, g.tag, g.publishedAt, g.tag[1..], g.revision, PACKAGE, g.tag[1..], npm.integrity,
        npm.tarball)
  }

  /** What `verify_npm_artifact` demands of an artifact the registry offers. */
  predicate Genuine(g: Release, npm: Npm, registry: string, h: Host)
    requires npm.Artifact? && g.tag != ""
  {
    h.integrity(npm.integrity) && h.tarball(npm.tarball, g.tag[1..], Origin(registry)) && Public(registry)
  }

  predicate SameGithubIdentity(current: Lock, g: Release)
    requires g.tag != ""
  {
    && current.repository == REPOSITORY && current.releaseId == g.id && current.tag == g.tag
    && current.publishedAt == g.publishedAt && current.version == g.tag[1..] && current.revision == g.revision
  }

  /** `detect` once the release is chosen. */
  function DetectFrom(current: Lock, listed: Row, g: Release, npm: Npm, registry: string, h: Host)
    : Result<Status, Fault>
  {
    if !ValidLock(current, registry, h) then Err(InvalidLock)
    else if !Verified(listed, g, h) then Err(ReleaseRejected)
    else
      var detected, before := VersionOf(g.tag[1..]).value, LockVersion(current);
      if Below(detected, before) then Err(Downgrade)
      else if detected == before && !SameGithubIdentity(current, g) then Err(IdentityChanged)
      else if npm.Awaiting? then if detected == before then Err(NpmNotPublished) else Ok(AwaitingNpm)
      else if npm.Rejected? || !Genuine(g, npm, registry, h) then Err(NpmRejected)
      else
        var candidate := CandidateLock(g, npm);
        if !ValidLock(candidate, registry, h) then Err(InvalidLock)
        else if detected != before then Ok(UpdateAvailable(candidate))
        else if candidate.(imageRevision := current.imageRevision) != current then Err(IdentityChanged)
        else Ok(UpToDate)
  }

  /** `detect`: choose the release, then decide. */
  method Detect(current: Lock, rows: seq<Row>, g: Release, npm: Npm, registry: string, h: Host)
      returns (r: Result<Status, Fault>)
    ensures !ValidLock(current, registry, h) ==> r == Err(InvalidLock)
    ensures ValidLock(current, registry, h) && Candidates(rows) == [] ==> r == Err(NoStableRelease)
    ensures ValidLock(current, registry, h) && !Faultless(Candidates(rows)) ==>
              r.Err? && FirstFault(Candidates(rows), r.error)
    ensures ValidLock(current, registry, h) && Candidates(rows) != [] && Faultless(Candidates(rows)) ==>
              exists listed :: IsMaximum(listed, Candidates(rows)) && ValidId(listed) &&
                  r == DetectFrom(current, listed, g, npm, registry, h)
  {
    hide IsMaximum, Candidates, IsCandidate, ValidId, DetectFrom, ValidLock, Faultless, FirstFault;
    if !ValidLock(current, registry, h) {
      return Err(InvalidLock);
    }
    NothingYet();
    var chosen := ChooseRelease(rows);
    if chosen.Err? {
      return Err(chosen.error);
    }
    r := DetectFrom(current, chosen.value, g, npm, registry, h);
  }

  // ----- Admission --------------------------------------------------------------------------

  /** The admission check of `apply_candidate`. */
  predicate Admits(current: Lock, candidate: Lock, h: Host) {
    && ValidLock(current, REGISTRY, h) && ValidLock(candidate, REGISTRY, h)
    && (|| (Below(LockVersion(current), LockVersion(candidate)) && candidate.imageRevision == 1)
        || (LockVersion(candidate) == LockVersion(current) && SameIdentity(current, candidate)
            && candidate.imageRevision == current.imageRevision + 1))
  }

  lemma {:induction false} VersionsOrdered(a: Version, b: Version)
    ensures a == b || Below(a, b) || Below(b, a)
    ensures !(Below(a, b) && Below(b, a)) && !Below(a, a)
  {
  }

  /** The candidate `detect` builds is a valid lock; its own check of it never fails. */
  lemma {:induction false} CandidateIsValid(listed: Row, g: Release, npm: Npm, registry: string, h: Host)
    requires ValidId(listed) && Verified(listed, g, h) && npm.Artifact? && Genuine(g, npm, registry, h)
    ensures ValidLock(CandidateLock(g, npm), registry, h)
  {
    hide VersionOf, LowerSha, Origin, Public;
    assert g.tag == "v" + g.tag[1..];
  }

  /** A lock that is valid against any spelling of the public registry is valid where it is applied. */
  lemma {:induction false} ValidWhereApplied(l: Lock, registry: string, h: Host)
    requires ValidLock(l, registry, h) && Public(registry)
    ensures ValidLock(l, REGISTRY, h)
  {
    hide VersionOf, LowerSha, Origin, Public;
    PublicOrigin(registry);
  }

  /** Every candidate that `detect` emits, against whatever registry, is admitted on the same lock. */
  lemma {:induction false} DetectedIsAdmitted(current: Lock, listed: Row, g: Release, npm: Npm, registry: string,
                                              h: Host, candidate: Lock)
    requires DetectFrom(current, listed, g, npm, registry, h) == Ok(UpdateAvailable(candidate))
    ensures Admits(current, candidate, h)
  {
    hide VersionOf, LowerSha, Verified, Origin, Public, ValidLock, SameIdentity;
    assert VersionOf(current.version).Some? && VersionOf(candidate.version).Some? by {
      ValidVersion(current, registry, h);
      ValidVersion(candidate, registry, h);
    }
    ValidWhereApplied(current, registry, h);
    ValidWhereApplied(candidate, registry, h);
    VersionsOrdered(LockVersion(current), LockVersion(candidate));
  }

  lemma {:induction false} ValidVersion(l: Lock, registry: string, h: Host)
    requires ValidLock(l, registry, h)
    ensures VersionOf(l.version).Some?
  {
    hide VersionOf, LowerSha, Origin;
  }

  /** What each answer of `detect` means, once the release is verified and npm offers an artifact. */
  lemma {:induction false} DetectAnswers(current: Lock, listed: Row, g: Release, npm: Npm, registry: string, h: Host)
    requires ValidId(listed) && ValidLock(current, registry, h) && Verified(listed, g, h) && npm.Artifact?
    ensures var r := DetectFrom(current, listed, g, npm, registry, h);
            var detected, before := VersionOf(g.tag[1..]).value, LockVersion(current);
            var genuine := Genuine(g, npm, registry, h);
            var other := detected == before && !SameGithubIdentity(current, g);
            && (r == Err(Downgrade) <==> Below(detected, before))
            && (r == Ok(UpToDate) <==> genuine && SameIdentity(current, CandidateLock(g, npm)))
            && (r == Ok(UpdateAvailable(CandidateLock(g, npm))) <==> genuine && Below(before, detected))
            && (r == Err(NpmRejected) <==> !genuine && !Below(detected, before) && !other)
            && (r == Err(IdentityChanged) <==>
                  other || (genuine && detected == before && !SameIdentity(current, CandidateLock(g, npm))))
  {
    hide VersionOf, LowerSha, Origin, Public, Genuine;
    if Genuine(g, npm, registry, h) {
      CandidateIsValid(listed, g, npm, registry, h);
    }
    VersionsOrdered(LockVersion(current), VersionOf(g.tag[1..]).value);
  }

  // ----- Chains of applied locks ----------------------------------------------------------------

  /** Each lock was applied on top of the one before it. */
  predicate Chain(locks: seq<Lock>, h: Host) {
    forall k :: 0 <= k < |locks| - 1 ==> Admits(locks[k], locks[k + 1], h)
  }

  /** (major, minor, patch, image revision), lexicographically. */
  predicate Before(a: Lock, b: Lock)
    requires VersionOf(a.version).Some? && VersionOf(b.version).Some?
  {
    || Below(LockVersion(a), LockVersion(b))
    || (LockVersion(a) == LockVersion(b) && a.imageRevision < b.imageRevision)
  }

  lemma {:induction false} ChainVersions(locks: seq<Lock>, h: Host, k: nat)
    requires Chain(locks, h) && |locks| > 1 && k < |locks|
    ensures VersionOf(locks[k].version).Some?
  {
    hide VersionOf, LowerSha, SameIdentity;
    if k + 1 < |locks| {
      assert Admits(locks[k], locks[k + 1], h);
    } else {
      assert Admits(locks[k - 1], locks[k - 1 + 1], h);
    }
  }

  /** Along every chain the locks strictly increase. */
  lemma {:induction false} ChainIncreases(locks: seq<Lock>, h: Host, i: nat, j: nat)
    requires Chain(locks, h) && i < j < |locks|
    ensures VersionOf(locks[i].version).Some? && VersionOf(locks[j].version).Some? && Before(locks[i], locks[j])
    decreases j
  {
    hide VersionOf, LowerSha, SameIdentity;
    ChainVersions(locks, h, i);
    ChainVersions(locks, h, j);
    assert Admits(locks[j - 1], locks[j - 1 + 1], h);
    if i < j - 1 {
      ChainIncreases(locks, h, i, j - 1);
    }
  }

  /**
   Two locks of one chain with the same version agree on every upstream field, and their image
   revisions count the applications between them.
   */
  lemma {:induction false} SameVersionSameIdentity(locks: seq<Lock>, h: Host, i: nat, j: nat)
    requires Chain(locks, h) && i <= j < |locks| && locks[i].version == locks[j].version
    ensures SameIdentity(locks[i], locks[j])
    ensures locks[j].imageRevision - locks[i].imageRevision == j - i
    decreases j
  {
    hide VersionOf, LowerSha;
    if i < j {
      var m := j - 1;
      assert Admits(locks[m], locks[m + 1], h);
      ChainIncreases(locks, h, m, j);
      if i < m {
        ChainIncreases(locks, h, i, m);
      }
      assert LockVersion(locks[m]) == LockVersion(locks[j]);
      VersionInjective(locks[m].version, locks[j].version);
      SameVersionSameIdentity(locks, h, i, m);
    }
  }

  /** No lock occurs twice in a chain; in particular what was applied cannot be applied again. */
  lemma {:induction false} NoLockTwice(locks: seq<Lock>, h: Host, i: nat, j: nat)
    requires Chain(locks, h) && i < j < |locks|
    ensures locks[i] != locks[j] && !Admits(locks[j], locks[i], h)
  {
    hide VersionOf, LowerSha, SameIdentity, Chain;
    ChainIncreases(locks, h, i, j);
    VersionsOrdered(LockVersion(locks[i]), LockVersion(locks[j]));
  }

  // ----- The container tree -----------------------------------------------------------------------

  /** The three files a candidate is written to; of the notices, the versions their sentence names. */
  datatype Files = Files(lock: Lock, dependencies: map<string, string>, notices: seq<string>)

  /** The dependency and the one notice name the locked version. */
  predicate Consistent(f: Files) {
    f.dependencies == map[PACKAGE := f.lock.version] && f.notices == [f.lock.version]
  }

  /** Everything `apply_candidate` checks before it writes. */
  predicate Accepts(f: Files, candidate: Lock, h: Host) {
    Admits(f.lock, candidate, h) && f.dependencies.Keys == {PACKAGE} && |f.notices| == 1
  }

  /** The files after the first `writes` of the three writes. */
  function Written(f: Files, candidate: Lock, writes: nat): Files {
    Files(if writes >= 1 then candidate else f.lock,
          if writes >= 2 then map[PACKAGE := candidate.version] else f.dependencies,
          if writes >= 3 then [candidate.version] else f.notices)
  }

  class Tree {
    var lock: Lock
    var dependencies: map<string, string>
    var notices: seq<string>

    constructor (f: Files)
      ensures View() == f
    {
      lock, dependencies, notices := f.lock, f.dependencies, f.notices;
    }

    ghost function View(): Files
      reads this
    {
      Files(lock, dependencies, notices)
    }

    /** `apply_candidate`; `writes` is how many of its three writes succeed. */
    method Apply(candidate: Lock, h: Host, writes: nat) returns (ok: bool)
      modifies this
      ensures ok <==> Accepts(old(View()), candidate, h) && writes >= 3
      ensures View() == if Accepts(old(View()), candidate, h) then Written(old(View()), candidate, writes)
                        else old(View())
    {
      hide Admits;
      if !Admits(lock, candidate, h) {
        return false;
      }
      if dependencies.Keys != {PACKAGE} {
        return false;
      }
      if |notices| != 1 {
        return false;
      }
      if writes < 1 {
        return false;
      }
      lock := candidate;
      if writes < 2 {
        return false;
      }
      dependencies := dependencies[PACKAGE := candidate.version];
      if writes < 3 {
        return false;
      }
      notices := [candidate.version];
      ok := true;
    }
  }

  /**
   From a consistent tree, an application leaves a consistent one if and only if it wrote
   nothing, wrote everything, or only repackaged the version that was locked.
   */
  lemma {:induction false} InterruptedApplication(f: Files, candidate: Lock, h: Host, writes: nat)
    requires Consistent(f) && Accepts(f, candidate, h)
    ensures Consistent(Written(f, candidate, writes)) <==>
              writes == 0 || writes >= 3 || candidate.version == f.lock.version
  {
    hide Admits;
    var g := Written(f, candidate, writes);
    assert g.dependencies[PACKAGE] == if writes >= 2 then candidate.version else f.lock.version;
    assert g.notices[0] == if writes >= 3 then candidate.version else f.lock.version;
  }

  /** Repeating an application that did not finish is accepted if and only if it had written nothing. */
  lemma {:induction false} RepeatedApplication(f: Files, candidate: Lock, h: Host, writes: nat)
    requires Accepts(f, candidate, h)
    ensures Accepts(Written(f, candidate, writes), candidate, h) <==> writes == 0
  {
    hide Admits;
    if writes > 0 {
      NotAdmittedTwice(candidate, h);
    }
  }

  lemma {:induction false} NotAdmittedTwice(l: Lock, h: Host)
    ensures !Admits(l, l, h)
  {
    hide VersionOf, LowerSha, SameIdentity;
  }
}
