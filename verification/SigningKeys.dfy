/** Versions of the certificate-signing key, and the three caches that stand between them and their readers. */
module SigningKeys {
  import opened Text
  import opened Filters

  /** The number at the end of a version's resource name. */
  type Numbering = string -> int

  // ----- The newest version, found in two ways -----

  /** `reduce((a, b) => a > b ? a : b)` over the first `n` names. */
  function FoldNewest(names: seq<string>, num: Numbering, n: nat): string
    requires 1 <= n <= |names|
    decreases n
  {
    if n == 1 then names[0]
    else
      var a, b := FoldNewest(names, num, n - 1), names[n - 1];
      if num(a) > num(b) then a else b
  }

  function Newest(names: seq<string>, num: Numbering): string
    requires names != []
  {
    FoldNewest(names, num, |names|)
  }

  /** The names with a given number, in order. */
  function Class(names: seq<string>, num: Numbering, k: int): seq<string> {
    if names == [] then []
    else
      var last := names[|names| - 1];
      Class(names[..|names| - 1], num, k) + if num(last) == k then [last] else []
  }

  ghost predicate Sorted(names: seq<string>, num: Numbering) {
    forall i, j :: 0 <= i < j < |names| ==> num(names[i]) <= num(names[j])
  }

  /** What `sort` promises: sorted by number, names of equal number in their old order. */
  ghost predicate IsStableSort(names: seq<string>, sorted: seq<string>, num: Numbering) {
    Sorted(sorted, num) && forall k :: Class(sorted, num, k) == Class(names, num, k)
  }

  lemma {:induction false} ClassMembers(names: seq<string>, num: Numbering, k: int)
    ensures Class(names, num, k) != [] <==> exists i :: 0 <= i < |names| && num(names[i]) == k
    ensures names != [] && num(names[|names| - 1]) == k ==>
      Class(names, num, k)[|Class(names, num, k)| - 1] == names[|names| - 1]
  {
    if names != [] {
      ClassMembers(names[..|names| - 1], num, k);
      if exists i :: 0 <= i < |names| && num(names[i]) == k {
        var i :| 0 <= i < |names| && num(names[i]) == k;
        assert i < |names| - 1 ==> num(names[..|names| - 1][i]) == k;
      }
    }
  }

  /** The fold gives the last of the names with the greatest number. */
  lemma {:induction false} FoldIsLastMaximum(names: seq<string>, num: Numbering, n: nat)
    requires 1 <= n <= |names|
    ensures var newest := FoldNewest(names, num, n);
      && newest in names[..n] && (forall i :: 0 <= i < n ==> num(names[i]) <= num(newest))
      && var peers := Class(names[..n], num, num(newest));
         peers != [] && peers[|peers| - 1] == newest
    decreases n
  {
    var newest, last := FoldNewest(names, num, n), names[n - 1];
    assert names[..n][..n - 1] == names[..n - 1] && names[..n][n - 1] == last;
    if n == 1 {
      assert names[..1][..0] == [];
    } else {
      FoldIsLastMaximum(names, num, n - 1);
    }
  }

  /** Folding with the maximum, and sorting stably and taking the last, agree on every non-empty list, ties included. */
  lemma NewestVersionsAgree(names: seq<string>, sorted: seq<string>, num: Numbering)
    requires names != [] && IsStableSort(names, sorted, num)
    ensures sorted != [] && sorted[|sorted| - 1] == Newest(names, num)
  {
    var newest := Newest(names, num);
    FoldIsLastMaximum(names, num, |names|);
    assert names[..|names|] == names;
    ClassMembers(sorted, num, num(newest));
    var last := sorted[|sorted| - 1];
    var i :| 0 <= i < |sorted| && num(sorted[i]) == num(newest);
    assert num(newest) <= num(last);
    ClassMembers(sorted, num, num(last));
    ClassMembers(names, num, num(last));
    assert num(last) <= num(newest);
  }

  // ----- What the process remembers -----

  datatype Cached<T> = Cached(value: T, expiresAt: int)

  const CURRENT_VERSION_TTL: int := 5 * 60 * 1000
  const ENABLED_VERSIONS_TTL: int := 10 * 60 * 1000

  /** An enabled version, and since when. */
  datatype Version = Version(name: string, since: int)

  datatype State = State(
    versions: seq<Version>, now: int,
    signer: Option<Cached<string>>, current: Option<Cached<string>>, listed: Option<Cached<seq<string>>>,
    signed: seq<string>)

  function Names(versions: seq<Version>): seq<string> {
    seq(|versions|, i requires 0 <= i < |versions| => versions[i].name)
  }

  predicate Holds<T>(cache: Option<Cached<T>>, now: int) {
    cache.Some? && cache.value.expiresAt > now
  }

  function Current(s: State, cache: Option<Cached<string>>, num: Numbering): string
    requires s.versions != []
  {
    if Holds(cache, s.now) then cache.value.value else Newest(Names(s.versions), num)
  }

  function Refreshed(s: State, cache: Option<Cached<string>>, num: Numbering): Option<Cached<string>>
    requires s.versions != []
  {
    if Holds(cache, s.now) then cache
    else Some(Cached(Newest(Names(s.versions), num), s.now + CURRENT_VERSION_TTL))
  }

  /** The kids `getJwks` publishes. */
  function Jwks(s: State): seq<string> {
    if Holds(s.listed, s.now) then s.listed.value.value else Names(s.versions)
  }

  datatype Action =
    | Tick(ms: nat)
    | Rotate(name: string)       // rotateSigningKey, to its end
    | LateEnable(name: string)   // a version whose rotation gave up waiting becomes ENABLED after all
    | Sign
    | GetPublicKey
    | GetJwks

  predicate IsNew(s: State, name: string, num: Numbering) {
    forall i :: 0 <= i < |s.versions| ==> num(s.versions[i].name) < num(name)
  }

  function Next(s: State, a: Action, num: Numbering): State
    requires s.versions != []
    ensures Next(s, a, num).versions != []
  {
    match a
    case Tick(ms) => s.(now := s.now + ms)
    case Rotate(name) =>
      if IsNew(s, name, num)
      then s.(versions := s.versions + [Version(name, s.now)], signer := None, current := None, listed := None)
      else s
    case LateEnable(name) => s.(versions := s.versions + [Version(name, s.now)])
    case Sign => s.(signed := s.signed + [Current(s, s.signer, num)], signer := Refreshed(s, s.signer, num))
    case GetPublicKey => s.(current := Refreshed(s, s.current, num))
    case GetJwks =>
      s.(listed := if Holds(s.listed, s.now) then s.listed
                   else Some(Cached(Names(s.versions), s.now + ENABLED_VERSIONS_TTL)))
  }

  function Run(s: State, schedule: seq<Action>, num: Numbering): State
    requires s.versions != []
    ensures Run(s, schedule, num).versions != []
  {
    if schedule == [] then s
    else Next(Run(s, schedule[..|schedule| - 1], num), schedule[|schedule| - 1], num)
  }

  function Start(first: Version, now: int): State {
    State([first], now, None, None, None, [])
  }

  // ----- Without late enabling the caches are never seen -----

  ghost predicate Exact(s: State, num: Numbering) {
    && s.versions != []
    && (s.signer.Some? ==> s.signer.value.value == Newest(Names(s.versions), num))
    && (s.current.Some? ==> s.current.value.value == Newest(Names(s.versions), num))
    && (s.listed.Some? ==> s.listed.value.value == Names(s.versions))
    && (forall i :: 0 <= i < |s.signed| ==> s.signed[i] in Names(s.versions))
  }

  lemma NextExact(s: State, a: Action, num: Numbering)
    requires Exact(s, num) && !a.LateEnable?
    ensures Exact(Next(s, a, num), num)
  {
    FoldIsLastMaximum(Names(s.versions), num, |s.versions|);
    assert Names(s.versions)[..|s.versions|] == Names(s.versions);
    if a.Rotate? && IsNew(s, a.name, num) {
      assert Names(Next(s, a, num).versions) == Names(s.versions) + [a.name];
    }
  }

  lemma {:induction false} RunExact(s: State, schedule: seq<Action>, num: Numbering)
    requires Exact(s, num)
    requires forall i :: 0 <= i < |schedule| ==> !schedule[i].LateEnable?
    ensures Exact(Run(s, schedule, num), num)
  {
    if schedule != [] {
      RunExact(s, schedule[..|schedule| - 1], num);
      NextExact(Run(s, schedule[..|schedule| - 1], num), schedule[|schedule| - 1], num);
    }
  }

  /**
   * Whatever the caches' expiries: a certificate is always signed under the newest version, the
   * published set is always exactly the enabled versions, and every kid ever used to sign is in it.
   */
  lemma CachesAreNeverSeen(first: Version, now: int, schedule: seq<Action>, num: Numbering)
    requires forall i :: 0 <= i < |schedule| ==> !schedule[i].LateEnable?
    ensures var s := Run(Start(first, now), schedule, num);
      && Current(s, s.signer, num) == Newest(Names(s.versions), num)
      && Jwks(s) == Names(s.versions)
      && forall i :: 0 <= i < |s.signed| ==> s.signed[i] in Jwks(s)
  {
    RunExact(Start(first, now), schedule, num);
  }

  /** After a rotation the next certificate is signed under the new version, even when late versions are about. */
  lemma {:induction false} RotationTakesEffect(first: Version, now: int, schedule: seq<Action>, name: string,
                                               num: Numbering)
    ensures var before := Run(Start(first, now), schedule, num);
      IsNew(before, name, num) ==>
        var after := Next(before, Rotate(name), num);
        Current(after, after.signer, num) == name && Current(after, after.current, num) == name && name in Jwks(after)
  {
    var before := Run(Start(first, now), schedule, num);
    if IsNew(before, name, num) {
      var after := Next(before, Rotate(name), num);
      var names := Names(after.versions);
      assert names == Names(before.versions) + [name];
      FoldIsLastMaximum(names, num, |names|);
      assert names[..|names|] == names && names[|names| - 1] == name;
      forall i | 0 <= i < |before.versions| ensures num(names[i]) < num(names[|before.versions|]) {
      }
    }
  }

  // ----- With late enabling they lag by at most their lifetimes -----

  /** Every version enabled by `time` is listed. */
  ghost predicate Lists(names: seq<string>, versions: seq<Version>, time: int) {
    forall i :: 0 <= i < |versions| && versions[i].since <= time ==> versions[i].name in names
  }

  ghost predicate NotOlder(name: string, versions: seq<Version>, time: int, num: Numbering) {
    forall i :: 0 <= i < |versions| && versions[i].since <= time ==> num(versions[i].name) <= num(name)
  }

  /** A cache's content was right when it was filled. */
  ghost predicate Timely(s: State, num: Numbering) {
    && s.versions != []
    && (forall i :: 0 <= i < |s.versions| ==> s.versions[i].since <= s.now)
    && (s.listed.Some? ==>
          && s.listed.value.expiresAt - ENABLED_VERSIONS_TTL <= s.now
          && Lists(s.listed.value.value, s.versions, s.listed.value.expiresAt - ENABLED_VERSIONS_TTL - 1))
    && (s.signer.Some? ==>
          && s.signer.value.expiresAt - CURRENT_VERSION_TTL <= s.now
          && NotOlder(s.signer.value.value, s.versions, s.signer.value.expiresAt - CURRENT_VERSION_TTL - 1, num))
  }

  lemma NewestIsNotOlder(versions: seq<Version>, num: Numbering, time: int)
    requires versions != []
    ensures NotOlder(Newest(Names(versions), num), versions, time, num) && Lists(Names(versions), versions, time)
  {
    var names := Names(versions);
    FoldIsLastMaximum(names, num, |names|);
    forall i | 0 <= i < |versions|
      ensures num(versions[i].name) <= num(Newest(names, num)) && versions[i].name in names
    {
      assert names[i] == versions[i].name;
    }
  }

  lemma NextTimely(s: State, a: Action, num: Numbering)
    requires Timely(s, num)
    ensures Timely(Next(s, a, num), num)
  {
    NewestIsNotOlder(s.versions, num, s.now - 1);
  }

  lemma {:induction false} RunTimely(s: State, schedule: seq<Action>, num: Numbering)
    requires Timely(s, num)
    ensures Timely(Run(s, schedule, num), num)
  {
    if schedule != [] {
      RunTimely(s, schedule[..|schedule| - 1], num);
      NextTimely(Run(s, schedule[..|schedule| - 1], num), schedule[|schedule| - 1], num);
    }
  }

  /**
   * In every run, also after rotations that gave up waiting: what was enabled ten minutes ago is
   * published, and nothing enabled five minutes ago is newer than the version that signs.
   */
  lemma {:induction false} StalenessIsBounded(first: Version, now: int, schedule: seq<Action>, num: Numbering)
    requires first.since <= now
    ensures var s := Run(Start(first, now), schedule, num);
      && Lists(Jwks(s), s.versions, s.now - 10 * 60 * 1000)
      && NotOlder(Current(s, s.signer, num), s.versions, s.now - 5 * 60 * 1000, num)
  {
    RunTimely(Start(first, now), schedule, num);
    var s := Run(Start(first, now), schedule, num);
    NewestIsNotOlder(s.versions, num, s.now - ENABLED_VERSIONS_TTL);
    NewestIsNotOlder(s.versions, num, s.now - CURRENT_VERSION_TTL);
  }

  // ----- Exactly when the signing version is published -----

  ghost predicate DistinctNames(versions: seq<Version>) {
    forall i, j :: 0 <= i < j < |versions| ==> versions[i].name != versions[j].name
  }

  /** The cached listing has lapsed, or was filled after the version became ENABLED: later, or later that instant. */
  predicate UpToDate(s: State, i: nat)
    requires i < |s.versions|
  {
    Holds(s.listed, s.now) ==>
      var filledAt := s.listed.value.expiresAt - ENABLED_VERSIONS_TTL;
      || s.versions[i].since < filledAt
      || (s.versions[i].since == filledAt && i < |s.listed.value.value|)
  }

  /** A listing holds the versions there were when it was filled, and a cached version is one of them all. */
  ghost predicate Filled(s: State) {
    && s.versions != []
    && (forall i :: 0 <= i < |s.versions| ==> s.versions[i].since <= s.now)
    && (s.signer.Some? ==> s.signer.value.value in Names(s.versions))
    && (s.listed.Some? ==> FilledBy(s.versions, s.listed.value.value, s.listed.value.expiresAt - ENABLED_VERSIONS_TTL))
    && (s.listed.Some? ==> s.listed.value.expiresAt - ENABLED_VERSIONS_TTL <= s.now)
  }

  ghost predicate FilledBy(versions: seq<Version>, listing: seq<string>, filledAt: int) {
    && |listing| <= |versions| && listing == Names(versions[..|listing|])
    && forall i :: 0 <= i < |versions| ==>
         if i < |listing| then versions[i].since <= filledAt else filledAt <= versions[i].since
  }

  lemma NextFilled(s: State, a: Action, num: Numbering)
    requires Filled(s)
    ensures Filled(Next(s, a, num))
  {
    var n := Next(s, a, num);
    FoldIsLastMaximum(Names(s.versions), num, |s.versions|);
    assert Names(s.versions)[..|s.versions|] == Names(s.versions) && s.versions[..|s.versions|] == s.versions;
    if |n.versions| > |s.versions| {
      assert Names(n.versions) == Names(s.versions) + [a.name];
      if n.listed.Some? {
        assert n.versions[..|n.listed.value.value|] == s.versions[..|n.listed.value.value|];
      }
    }
  }

  lemma {:induction false} RunFilled(s: State, schedule: seq<Action>, num: Numbering)
    requires Filled(s)
    ensures Filled(Run(s, schedule, num))
  {
    if schedule != [] {
      RunFilled(s, schedule[..|schedule| - 1], num);
      NextFilled(Run(s, schedule[..|schedule| - 1], num), schedule[|schedule| - 1], num);
    }
  }

  /**
   * In every run: the version that signs is an enabled one, and an enabled version, the signing one
   * included, is published if and only if the cached listing has lapsed or was filled after the version
   * became ENABLED. (KMS gives every version its own name.)
   */
  lemma {:induction false} PublishedExactlyWhen(first: Version, now: int, schedule: seq<Action>, num: Numbering)
    requires first.since <= now && DistinctNames(Run(Start(first, now), schedule, num).versions)
    ensures var s := Run(Start(first, now), schedule, num);
      && Current(s, s.signer, num) in Names(s.versions)
      && forall i :: 0 <= i < |s.versions| ==> (s.versions[i].name in Jwks(s) <==> UpToDate(s, i))
  {
    RunFilled(Start(first, now), schedule, num);
    var s := Run(Start(first, now), schedule, num);
    var names := Names(s.versions);
    FoldIsLastMaximum(names, num, |names|);
    assert names[..|names|] == names;
    forall i | 0 <= i < |s.versions| ensures s.versions[i].name in Jwks(s) <==> UpToDate(s, i) {
      assert names[i] == s.versions[i].name;
      if Holds(s.listed, s.now) {
        var listing := s.listed.value.value;
        if i < |listing| {
          assert listing[i] == names[i];
        } else {
          assert forall j :: 0 <= j < |listing| ==> listing[j] == s.versions[j].name;
        }
      }
    }
  }

  lemma RunTwo(s: State, schedule: seq<Action>, a: Action, num: Numbering)
    requires s.versions != []
    ensures Run(s, schedule + [a], num) == Next(Run(s, schedule, num), a, num)
  {
  }

  /**
   * A rotation that gives up waiting clears no cache: when its version becomes ENABLED after all, a
   * certificate can be signed under a kid that the cached key set does not publish.
   */
  lemma LateVersionSignsUnpublished(num: Numbering)
    requires num("1") < num("2")
    ensures var s := Run(Start(Version("1", 0), 0), [GetJwks, Tick(1), LateEnable("2"), Sign], num);
      s.signed == ["2"] && "2" !in Jwks(s)
  {
    var s0 := Start(Version("1", 0), 0);
    assert Names(s0.versions) == ["1"];
    RunTwo(s0, [], GetJwks, num);
    RunTwo(s0, [GetJwks], Tick(1), num);
    RunTwo(s0, [GetJwks, Tick(1)], LateEnable("2"), num);
    RunTwo(s0, [GetJwks, Tick(1), LateEnable("2")], Sign, num);
    assert [GetJwks, Tick(1), LateEnable("2"), Sign] == [GetJwks, Tick(1), LateEnable("2")] + [Sign];
    var s3 := Run(s0, [GetJwks, Tick(1), LateEnable("2")], num);
    var names := Names(s3.versions);
    assert names == ["1", "2"] && FoldNewest(names, num, 1) == "1";
    assert Newest(names, num) == "2";
  }

  // ----- The classes -----

  datatype KeyState = PendingGeneration | Enabled | GenerationFailed

  datatype KeyVersion = KeyVersion(name: string, state: KeyState, since: int)

  function EnabledFirst(all: seq<KeyVersion>, n: nat): seq<Version>
    requires n <= |all|
    decreases n
  {
    if n == 0 then []
    else
      var v := all[n - 1];
      EnabledFirst(all, n - 1) + if v.state.Enabled? then [Version(v.name, v.since)] else []
  }

  function EnabledOf(all: seq<KeyVersion>): seq<Version> {
    EnabledFirst(all, |all|)
  }

  function IsEnabled(): KeyVersion -> bool {
    (v: KeyVersion) => v.state.Enabled?
  }

  /** The enabled versions are those of all versions that are ENABLED, in their order. */
  lemma {:induction false} EnabledAre(all: seq<KeyVersion>, n: nat)
    requires n <= |all|
    ensures var kept := KeepFirst(all, IsEnabled(), n);
      && |EnabledFirst(all, n)| == |kept|
      && forall i :: 0 <= i < |kept| ==> EnabledFirst(all, n)[i] == Version(kept[i].name, kept[i].since)
    decreases n
  {
    if n > 0 {
      EnabledAre(all, n - 1);
    }
  }

  class CloudKmsClient {
    var all: seq<KeyVersion>
    const num: Numbering
    /** A version's public key, which never changes once it is ENABLED. */
    const pem: string -> string

    constructor (first: string, num: Numbering, pem: string -> string, now: int)
      ensures this.num == num && this.pem == pem && EnabledOf(all) == [Version(first, now)]
    {
      this.num, this.pem := num, pem;
      all := [KeyVersion(first, Enabled, now)];
      new;
      assert EnabledFirst(all, 0) == [];
    }

    method ListEnabledVersions() returns (versions: seq<string>)
      ensures versions == Names(EnabledOf(all))
    {
      versions := [];
      for i := 0 to |all|
        invariant versions == Names(EnabledFirst(all, i))
      {
        if all[i].state.Enabled? {
          versions := versions + [all[i].name];
        }
      }
    }

    method GetNewestEnabledVersion() returns (newest: Option<string>)
      ensures newest == if EnabledOf(all) == [] then None else Some(Newest(Names(EnabledOf(all)), num))
    {
      var versions := ListEnabledVersions();
      if |versions| == 0 { return None; }
      var a := versions[0];
      for i := 1 to |versions|
        invariant a == FoldNewest(versions, num, i)
      {
        if !(num(a) > num(versions[i])) {
          a := versions[i];
        }
      }
      newest := Some(a);
    }

    /** `createKeyVersion`: the version generates its key first. */
    method CreateKeyVersion(name: string, now: int)
      modifies this
      ensures all == old(all) + [KeyVersion(name, PendingGeneration, now)]
      ensures EnabledOf(all) == EnabledOf(old(all))
    {
      all := all + [KeyVersion(name, PendingGeneration, now)];
      EnabledPrefix(old(all), [KeyVersion(name, PendingGeneration, now)], |old(all)|);
    }

    /** The newest version's key is generated, or could not be. */
    method Settle(state: KeyState, now: int)
      requires all != [] && all[|all| - 1].state.PendingGeneration?
      modifies this
      ensures EnabledOf(all)
        == EnabledOf(old(all)) + if state.Enabled? then [Version(old(all)[|old(all)| - 1].name, now)] else []
    {
      var before, last := all[..|all| - 1], all[|all| - 1];
      assert all == before + [last];
      all := before + [KeyVersion(last.name, state, now)];
      EnabledPrefix(before, [last], |before|);
      EnabledPrefix(before, [KeyVersion(last.name, state, now)], |before|);
    }
  }

  const WAIT_TIMEOUT: int := 120000
  const POLL_INTERVAL: int := 3000

  datatype Wait = Ready | FailedToGenerate | TimedOut

  /** The wait ended so after this many polls: each outcome has its reason in the last one. */
  ghost predicate Waited(answers: nat -> KeyState, start: int, times: nat -> int, r: Wait, polls: nat) {
    && 1 <= polls <= 41
    && (forall i :: 0 <= i < polls - 1 ==> answers(i).PendingGeneration? && times(i) < start + 120000)
    && var last := answers(polls - 1);
       && (r.Ready? <==> last.Enabled?) && (r.FailedToGenerate? <==> last.GenerationFailed?)
       && (r.TimedOut? ==> times(polls - 1) >= start + 120000)
  }

  /**
   * `waitForVersionEnabled`: polls until the version is ENABLED or has failed, or two minutes have
   * passed; `answers` are what the polls see and `times` the clock after each.
   */
  method WaitForVersionEnabled(answers: nat -> KeyState, start: int, times: nat -> int) returns (r: Wait, polls: nat)
    requires start <= times(0) && forall i: nat :: times(i) + POLL_INTERVAL <= times(i + 1)
    ensures Waited(answers, start, times, r, polls)
  {
    polls := 0;
    while true
      invariant polls * POLL_INTERVAL <= times(polls) - start && 0 <= polls <= 40
      invariant forall i :: 0 <= i < polls ==> answers(i).PendingGeneration? && times(i) < start + WAIT_TIMEOUT
      decreases 41 - polls
    {
      var now := times(polls);
      match answers(polls) {
        case Enabled => return Ready, polls + 1;
        case GenerationFailed => return FailedToGenerate, polls + 1;
        case PendingGeneration =>
      }
      if now >= start + WAIT_TIMEOUT { return TimedOut, polls + 1; }
      polls := polls + 1;
    }
  }

  lemma {:induction false} EnabledPrefix(a: seq<KeyVersion>, b: seq<KeyVersion>, n: nat)
    requires n <= |a|
    ensures EnabledFirst(a + b, n) == EnabledFirst(a, n)
    decreases n
  {
    if n > 0 {
      EnabledPrefix(a, b, n - 1);
    }
  }

  /** The signer's part: its own cache of the current version. */
  class CertificateSigner {
    const kms: CloudKmsClient
    var cache: Option<Cached<string>>
    var signed: seq<string>

    constructor (kms: CloudKmsClient)
      ensures this.kms == kms && cache == None && signed == []
    {
      this.kms, cache, signed := kms, None, [];
    }

    method GetCurrentSigningKeyVersion(now: int) returns (version: Option<string>)
      modifies this`cache
      ensures EnabledOf(kms.all) != [] || Holds(old(cache), now) ==> version.Some?
      ensures Holds(old(cache), now) ==> version == Some(old(cache).value.value) && cache == old(cache)
      ensures !Holds(old(cache), now) && EnabledOf(kms.all) != [] ==>
        && version == Some(Newest(Names(EnabledOf(kms.all)), kms.num))
        && cache == Some(Cached(version.value, now + CURRENT_VERSION_TTL))
    {
      if cache.Some? && cache.value.expiresAt > now {
        return Some(cache.value.value);
      }
      version := kms.GetNewestEnabledVersion();
      if version.Some? {
        cache := Some(Cached(version.value, now + CURRENT_VERSION_TTL));
      }
    }

    method InvalidateSigningKeyCache()
      modifies this`cache
      ensures cache == None
    {
      cache := None;
    }

    method SignClaims(now: int) returns (kid: Option<string>)
      requires EnabledOf(kms.all) != []
      modifies this
      ensures kid.Some? && signed == old(signed) + [kid.value]
      ensures Holds(old(cache), now) ==> kid == Some(old(cache).value.value) && cache == old(cache)
      ensures !Holds(old(cache), now) ==>
        && kid == Some(Newest(Names(EnabledOf(kms.all)), kms.num))
        && cache == Some(Cached(kid.value, now + CURRENT_VERSION_TTL))
    {
      kid := GetCurrentSigningKeyVersion(now);
      signed := signed + [kid.value];
    }
  }

  /** What is published for a version. */
  datatype Jwk = Jwk(kid: string, key: string)

  /** How a rotation ends: with the versions before and after, or with an exception from the wait. */
  datatype Rotation = Rotated(previous: string) | GaveUp(reason: Wait)

  /** The orchestrator's part: its own caches, and the rotation that clears all that can go stale. */
  class CertificateService {
    const kms: CloudKmsClient
    const signer: CertificateSigner
    var current: Option<Cached<string>>
    var listed: Option<Cached<seq<string>>>
    /** The converted public keys; a version's never expires. */
    var jwks: map<string, Jwk>

    constructor (kms: CloudKmsClient, signer: CertificateSigner)
      requires signer.kms == kms
      ensures this.kms == kms && this.signer == signer && current == None && listed == None && jwks == map[]
    {
      this.kms, this.signer, current, listed, jwks := kms, signer, None, None, map[];
    }

    ghost predicate Valid()
      reads this, kms
    {
      && signer.kms == kms && EnabledOf(kms.all) != []
      && forall kid :: kid in jwks ==> jwks[kid] == Jwk(kid, kms.pem(kid))
    }

    /** The process as the run-level model sees it. */
    ghost function View(now: int): State
      reads this, kms, signer
    {
      State(EnabledOf(kms.all), now, signer.cache, current, listed, signer.signed)
    }

    method GetPublicKeyVersion(now: int) returns (version: string)
      requires Valid()
      modifies this`current
      ensures version == Current(old(View(now)), old(current), kms.num)
      ensures Valid() && View(now) == Next(old(View(now)), GetPublicKey, kms.num)
    {
      if current.Some? && current.value.expiresAt > now {
        return current.value.value;
      }
      var newest := kms.GetNewestEnabledVersion();
      version := newest.value;
      current := Some(Cached(version, now + CURRENT_VERSION_TTL));
    }

    method GetEnabledVersions(now: int) returns (kids: seq<string>)
      requires Valid()
      modifies this`listed
      ensures kids == Jwks(old(View(now)))
      ensures Valid() && View(now) == Next(old(View(now)), Action.GetJwks, kms.num)
    {
      if listed.Some? && listed.value.expiresAt > now {
        return listed.value.value;
      }
      kids := kms.ListEnabledVersions();
      listed := Some(Cached(kids, now + ENABLED_VERSIONS_TTL));
    }

    method GetJwk(kid: string) returns (key: Jwk)
      requires Valid()
      modifies this`jwks
      ensures Valid() && key == Jwk(kid, kms.pem(kid))
    {
      if kid !in jwks {
        jwks := jwks[kid := Jwk(kid, kms.pem(kid))];
      }
      key := jwks[kid];
    }

    method GetJwks(now: int) returns (keys: seq<Jwk>)
      requires Valid()
      modifies this`listed, this`jwks
      ensures |keys| == |Jwks(old(View(now)))|
      ensures forall i :: 0 <= i < |keys| ==>
        keys[i] == Jwk(Jwks(old(View(now)))[i], kms.pem(Jwks(old(View(now)))[i]))
      ensures Valid() && View(now) == Next(old(View(now)), Action.GetJwks, kms.num)
    {
      var versions := GetEnabledVersions(now);
      keys := [];
      ghost var filled := listed;
      for i := 0 to |versions|
        invariant |keys| == i && forall k :: 0 <= k < i ==> keys[k] == Jwk(versions[k], kms.pem(versions[k]))
        invariant Valid() && listed == filled
      {
        var key := GetJwk(versions[i]);
        keys := keys + [key];
      }
    }

    method IssueSigned(now: int) returns (kid: string)
      requires Valid()
      modifies signer
      ensures kid == Current(old(View(now)), old(signer.cache), kms.num)
      ensures Valid() && View(now) == Next(old(View(now)), Sign, kms.num)
    {
      var signed := signer.SignClaims(now);
      kid := signed.value;
    }

    /**
     * `name` is the name KMS gives the version it creates: its number is greater than all before it.
     * `answers` and `times` are what the wait's polls see. When the wait gives up, the caches stay.
     */
    method RotateSigningKey(name: string, now: int, answers: nat -> KeyState, times: nat -> int)
        returns (r: Rotation, polls: nat)
      requires Valid() && IsNew(View(now), name, kms.num)
      requires now <= times(0) && forall i: nat :: times(i) + POLL_INTERVAL <= times(i + 1)
      modifies this, kms, signer`cache
      ensures Waited(answers, now, times, if r.Rotated? then Ready else r.reason, polls)
      ensures Valid() && forall later ::
        View(later) == if r.Rotated? then Next(old(View(times(polls - 1))), Rotate(name), kms.num).(now := later)
                       else Next(old(View(now)), GetPublicKey, kms.num).(now := later)
      ensures r.Rotated? ==> r.previous == Current(old(View(now)), old(current), kms.num)
      ensures r.GaveUp? ==> !r.reason.Ready?
    {
      var previous := GetPublicKeyVersion(now);
      kms.CreateKeyVersion(name, now);
      var wait;
      wait, polls := WaitForVersionEnabled(answers, now, times);
      if !wait.Ready? {
        if wait.FailedToGenerate? { kms.Settle(GenerationFailed, times(polls - 1)); }
        return GaveUp(wait), polls;
      }
      kms.Settle(Enabled, times(polls - 1));
      current, listed := None, None;
      signer.InvalidateSigningKeyCache();
      r := Rotated(previous);
    }
  }
}
