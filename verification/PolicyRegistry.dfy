/** The role policy registry: drafts on published policies, and publishing without ever overwriting one. */
module PolicyRegistry {
  import opened Logs
  import opened PolicyVersions

  /** The text of a policy apart from its name; whether it is acceptable is a parameter of the registry. */
  datatype Policy = Policy(id: string, version: string, role: string, content: string)

  /** What a draft may change; the role always becomes the draft's own. */
  datatype Patch = Patch(id: Option<string>, version: Option<string>, content: Option<string>)

  datatype Draft = Draft(
    pack: string, role: string, baseRef: string, policy: Policy, published: Option<string>)

  datatype Store = Store(
    packs: map<string, map<string, string>>, policies: map<string, Policy>, drafts: map<string, Draft>)

  /** The content checks the registry calls out to. */
  datatype Checks = Checks(content: string -> bool, patch: Patch -> bool)

  datatype Problem =
    | BadPatch | UnknownPack | NoPolicyForRole | UnknownRef | InvalidPolicy | UnknownDraft | NotDraft | Stale
    | NotSemver | RefCollision | BadRef

  datatype Outcome<+T> = Success(value: T) | Failure(problem: Problem)

  function RefOf(p: Policy): string { Ref(p.id, p.version) }

  predicate ValidPolicy(checks: Checks, p: Policy) {
    SafeId(p.id) && SafeId(p.version) && checks.content(p.content)
  }

  function Patched(p: Policy, patch: Patch, role: string): Policy {
    Policy(if patch.id.Some? then patch.id.value else p.id,
           if patch.version.Some? then patch.version.value else p.version,
           role,
           if patch.content.Some? then patch.content.value else p.content)
  }

  /** What loading a registry checks: every pointer resolves to a valid policy of its role, filed under its own ref. */
  ghost predicate StoreOk(checks: Checks, s: Store) {
    && (forall ref :: ref in s.policies ==> ref == RefOf(s.policies[ref]) && ValidPolicy(checks, s.policies[ref]))
    && (forall pack, role :: pack in s.packs && role in s.packs[pack] ==>
          s.packs[pack][role] in s.policies && s.policies[s.packs[pack][role]].role == role)
    && (forall id :: id in s.drafts ==> s.drafts[id].policy.role == s.drafts[id].role)
  }

  predicate HasPointer(s: Store, pack: string, role: string) { pack in s.packs && role in s.packs[pack] }

  /** Refs that some other pack or role points at. */
  function UsedOutside(s: Store, pack: string, role: string): set<string> {
    set p, r | p in s.packs && r in s.packs[p] && (p != pack || r != role) :: s.packs[p][r]
  }

  /** Some other pack or role points at this ref. */
  predicate PointedAtElsewhere(packs: map<string, map<string, string>>, pack: string, role: string, ref: string) {
    exists p, r :: p in packs && r in packs[p] && (p != pack || r != role) && packs[p][r] == ref
  }

  // ---- creating a draft -------------------------------------------------------------------

  predicate MayCreate(checks: Checks, s: Store, pack: string, role: string, patch: Patch) {
    && checks.patch(patch) && HasPointer(s, pack, role) && s.packs[pack][role] in s.policies
    && ValidPolicy(checks, Patched(s.policies[s.packs[pack][role]], patch, role))
  }

  /** The new store has one more draft, under an id nobody had, on the policy the pack points at. */
  ghost predicate Created(s: Store, pack: string, role: string, patch: Patch, s': Store, id: string)
    requires HasPointer(s, pack, role) && s.packs[pack][role] in s.policies
  {
    && id !in s.drafts
    && s' == s.(drafts := s.drafts[id := Draft(pack, role, s.packs[pack][role],
                                               Patched(s.policies[s.packs[pack][role]], patch, role), None)])
  }

  // ---- publishing one ------------------------------------------------------------------------

  /** Publishing under the draft's own ref would disturb somebody, or rewrite a published policy. */
  predicate NeedsNewVersion(s: Store, d: Draft, referenced: set<string>) {
    || d.baseRef in referenced
    || d.baseRef in UsedOutside(s, d.pack, d.role)
    || (RefOf(d.policy) == d.baseRef && !(d.baseRef in s.policies && s.policies[d.baseRef] == d.policy))
  }

  /** A draft whose base is still what its pack points at. */
  predicate Publishable(s: Store, id: string) {
    && id in s.drafts && s.drafts[id].published.None? && HasPointer(s, s.drafts[id].pack, s.drafts[id].role)
    && s.packs[s.drafts[id].pack][s.drafts[id].role] == s.drafts[id].baseRef
  }

  function TakenRefs(s: Store, d: Draft, referenced: set<string>): set<string> {
    s.policies.Keys + referenced + UsedOutside(s, d.pack, d.role)
  }

  /** The policy to be published: the draft's, or the draft's text under the base's next free version. */
  ghost predicate IsRelease(s: Store, d: Draft, referenced: set<string>, p: Policy) {
    if NeedsNewVersion(s, d, referenced) then
      && SplitRef(d.baseRef).Some? && p.id == SplitRef(d.baseRef).value.0
      && var base := ParseVersion(SplitRef(d.baseRef).value.1);
      && base.Some? && p.role == d.policy.role && p.content == d.policy.content
      && exists k: nat :: FirstFree(p.id, base.value, TakenRefs(s, d, referenced), k) && p.version == FormatVersion(Bump(base.value, k))
    else
      p == d.policy
  }

  /** What is released has the draft's text; when its base is used elsewhere, or would be rewritten, the base's id goes on
      under a version nobody uses, and otherwise it is the draft as it stands. */
  ghost predicate Settled(s: Store, id: string, referenced: set<string>, p: Policy) {
    && id in s.drafts
    && var d := s.drafts[id];
       && d.baseRef in s.policies && p.role == d.policy.role && p.content == d.policy.content
       && var base, ref := s.policies[d.baseRef], p.id + "@" + p.version;
          if d.baseRef in referenced || PointedAtElsewhere(s.packs, d.pack, d.role, d.baseRef)
             || (d.policy.id + "@" + d.policy.version == d.baseRef && d.policy != base) then
            && p.id == base.id && ref !in s.policies && ref !in referenced
            && !PointedAtElsewhere(s.packs, d.pack, d.role, ref)
          else p == d.policy
  }

  ghost predicate Published(s: Store, id: string, referenced: set<string>, s': Store, p: Policy)
    requires Publishable(s, id)
  {
    var d := s.drafts[id];
    && IsRelease(s, d, referenced, p)
    && (RefOf(p) in s.policies ==> RefOf(p) == d.baseRef)
    && s' == Store(s.packs[d.pack := s.packs[d.pack][d.role := RefOf(p)]],
                   s.policies[RefOf(p) := p],
                   s.drafts[id := d.(published := Some(RefOf(p)))])
  }

  class RolePolicyRegistry {
    var packs: map<string, map<string, string>>
    var policies: map<string, Policy>
    var drafts: map<string, Draft>
    const checks: Checks

    ghost function State(): Store
      reads this
    {
      Store(packs, policies, drafts)
    }

    ghost predicate Valid()
      reads this
    {
      StoreOk(checks, State())
    }

    constructor (checks: Checks, s: Store)
      requires StoreOk(checks, s)
      ensures Valid() && State() == s && this.checks == checks
    {
      this.checks, packs, policies, drafts := checks, s.packs, s.policies, s.drafts;
    }

    method CreateDraft(pack: string, role: string, patch: Patch) returns (r: Outcome<string>)
      requires Valid()
      modifies this
      ensures Valid()
      ensures r.Success? <==> MayCreate(checks, old(State()), pack, role, patch)
      ensures r.Success? ==> Created(old(State()), pack, role, patch, State(), r.value)
      ensures r.Failure? ==> State() == old(State())
      ensures r == Failure(BadPatch) <==> !checks.patch(patch)
      ensures r == Failure(UnknownPack) <==> checks.patch(patch) && pack !in old(packs)
      ensures r == Failure(NoPolicyForRole) <==> checks.patch(patch) && pack in old(packs) && role !in old(packs)[pack]
      ensures checks.patch(patch) && pack in old(packs) && role in old(packs)[pack] ==>
                && old(packs)[pack][role] in old(policies)
                && var base := old(policies)[old(packs)[pack][role]];
                   var id := if patch.id.None? then base.id else patch.id.value;
                   var version := if patch.version.None? then base.version else patch.version.value;
                   var content := if patch.content.None? then base.content else patch.content.value;
                   if SafeId(id) && SafeId(version) && checks.content(content) then
                     && r.Success? && r.value !in old(drafts) && packs == old(packs) && policies == old(policies)
                     && drafts == old(drafts)[r.value := Draft(pack, role, old(packs)[pack][role],
                                                               Policy(id, version, role, content), None)]
                   else r == Failure(InvalidPolicy)
    {
      if !checks.patch(patch) {
        return Failure(BadPatch);
      }
      if pack !in packs {
        return Failure(UnknownPack);
      }
      if role !in packs[pack] {
        return Failure(NoPolicyForRole);
      }
      var current := packs[pack][role];
      if SplitRef(current).None? {
        PointersSplit(checks, State(), pack, role);
        return Failure(BadRef);
      }
      if current !in policies {
        return Failure(UnknownRef);
      }
      var policy := Patched(policies[current], patch, role);
      if !ValidPolicy(checks, policy) {
        return Failure(InvalidPolicy);
      }
      var id := NextDraftId(drafts.Keys, pack, role);
      drafts := drafts[id := Draft(pack, role, current, policy, None)];
      return Success(id);
    }

    method PublishDraft(id: string, referenced: set<string>) returns (r: Outcome<Policy>)
      requires Valid()
      modifies this
      ensures Valid()
      ensures r.Success? ==> Publishable(old(State()), id) && Published(old(State()), id, referenced, State(), r.value)
                             && ValidPolicy(checks, r.value)
      ensures r.Failure? ==> State() == old(State())
      ensures if id !in old(drafts) then r == Failure(UnknownDraft)
              else
                var d := old(drafts)[id];
                if d.published.Some? then r == Failure(NotDraft)
                else if d.pack !in old(packs) then r == Failure(UnknownPack)
                else if d.role !in old(packs)[d.pack] then r == Failure(NoPolicyForRole)
                else if old(packs)[d.pack][d.role] != d.baseRef then r == Failure(Stale)
                else r.Success? || r == Failure(NotSemver) || r == Failure(InvalidPolicy) || r == Failure(RefCollision)
      ensures Publishable(old(State()), id) && r.Failure? ==>
                !exists p :: IsRelease(old(State()), old(State()).drafts[id], referenced, p) && ValidPolicy(checks, p)
                             && (RefOf(p) in old(policies) ==> RefOf(p) == old(State()).drafts[id].baseRef)
      ensures r.Success? ==> Settled(old(State()), id, referenced, r.value)
    {
      hide StoreOk, FirstFree, Settled;
      ghost var s := State();
      if id !in drafts {
        return Failure(UnknownDraft);
      }
      var d := drafts[id];
      if d.published.Some? {
        return Failure(NotDraft);
      }
      if d.pack !in packs {
        return Failure(UnknownPack);
      }
      if d.role !in packs[d.pack] {
        return Failure(NoPolicyForRole);
      }
      var outside := UsedOutside(Store(packs, policies, drafts), d.pack, d.role);
      if packs[d.pack][d.role] != d.baseRef {
        return Failure(Stale);
      }
      var policy := d.policy;
      if d.baseRef in referenced || d.baseRef in outside
         || (RefOf(policy) == d.baseRef && !(d.baseRef in policies && policies[d.baseRef] == policy)) {
        PointersSplit(checks, s, d.pack, d.role);
        var (baseId, baseVersion) := SplitRef(d.baseRef).value;
        var version, _ := NextUnusedPatchVersion(baseId, baseVersion, policies.Keys + referenced + outside);
        if version.None? {
          return Failure(NotSemver);
        }
        policy := policy.(id := baseId, version := version.value);
      }
      assert IsRelease(s, d, referenced, policy);
      OneRelease(s, d, referenced, policy);
      if !ValidPolicy(checks, policy) {
        return Failure(InvalidPolicy);
      }
      var ref := RefOf(policy);
      if ref in policies && ref != d.baseRef {
        return Failure(RefCollision);
      }
      policies := policies[ref := policy];
      packs := packs[d.pack := packs[d.pack][d.role := ref]];
      drafts := drafts[id := d.(published := Some(ref))];
      PublishKeepsStore(checks, s, id, referenced, State(), policy);
      ReleaseSettles(checks, s, id, referenced, policy);
      return Success(policy);
    }
  }

  lemma PointersSplit(checks: Checks, s: Store, pack: string, role: string)
    requires StoreOk(checks, s) && HasPointer(s, pack, role)
    ensures s.packs[pack][role] in s.policies && SplitRef(s.packs[pack][role]).Some?
    ensures var p := s.policies[s.packs[pack][role]]; SplitRef(s.packs[pack][role]).value == (p.id, p.version)
  {
    var p := s.policies[s.packs[pack][role]];
    RefRoundTrip(p.id, p.version);
  }

  /** The release of a draft is determined: the first free version is unique. */
  lemma OneRelease(s: Store, d: Draft, referenced: set<string>, p: Policy)
    requires IsRelease(s, d, referenced, p)
    ensures forall q :: IsRelease(s, d, referenced, q) ==> q == p
  {
    forall q | IsRelease(s, d, referenced, q) ensures q == p {
      if NeedsNewVersion(s, d, referenced) {
        var base, taken := ParseVersion(SplitRef(d.baseRef).value.1).value, TakenRefs(s, d, referenced);
        var j: nat :| FirstFree(p.id, base, taken, j) && p.version == FormatVersion(Bump(base, j));
        var k: nat :| FirstFree(q.id, base, taken, k) && q.version == FormatVersion(Bump(base, k));
        assert j == k;
      }
    }
  }

  lemma PublishKeepsStore(checks: Checks, s: Store, id: string, referenced: set<string>, s': Store, p: Policy)
    requires StoreOk(checks, s) && Publishable(s, id) && Published(s, id, referenced, s', p) && ValidPolicy(checks, p)
    ensures StoreOk(checks, s')
  {
    NothingOverwritten(checks, s, id, referenced, s', p);
    assert p.role == s.drafts[id].policy.role == s.drafts[id].role;
  }

  lemma ReleaseSettles(checks: Checks, s: Store, id: string, referenced: set<string>, p: Policy)
    requires StoreOk(checks, s) && Publishable(s, id) && IsRelease(s, s.drafts[id], referenced, p)
    ensures Settled(s, id, referenced, p)
  {
    hide StoreOk, IsRelease, UsedOutside, PointedAtElsewhere, SplitRef;
    var d := s.drafts[id];
    PointersSplit(checks, s, d.pack, d.role);
    ElsewhereExactly(s, d.pack, d.role, d.baseRef);
    ElsewhereExactly(s, d.pack, d.role, RefOf(p));
    ReleaseKeepsText(s, d, referenced, p);
    if NeedsNewVersion(s, d, referenced) {
      NewVersionIsFree(s, d, referenced, p);
    }
  }

  lemma ReleaseKeepsText(s: Store, d: Draft, referenced: set<string>, p: Policy)
    requires IsRelease(s, d, referenced, p)
    ensures p.role == d.policy.role && p.content == d.policy.content
    ensures if NeedsNewVersion(s, d, referenced) then SplitRef(d.baseRef).Some? && p.id == SplitRef(d.baseRef).value.0
            else p == d.policy
  {
  }

  lemma ElsewhereExactly(s: Store, pack: string, role: string, ref: string)
    ensures ref in UsedOutside(s, pack, role) <==> PointedAtElsewhere(s.packs, pack, role, ref)
  {
  }

  lemma NewVersionIsFree(s: Store, d: Draft, referenced: set<string>, p: Policy)
    requires IsRelease(s, d, referenced, p) && NeedsNewVersion(s, d, referenced)
    ensures RefOf(p) !in s.policies && RefOf(p) !in referenced && RefOf(p) !in UsedOutside(s, d.pack, d.role)
  {
    var base, taken := ParseVersion(SplitRef(d.baseRef).value.1).value, TakenRefs(s, d, referenced);
    var k: nat :| FirstFree(p.id, base, taken, k) && p.version == FormatVersion(Bump(base, k));
    assert RefOf(p) == Candidate(p.id, base, k);
  }

  /** Publishing never changes what a ref already names. */
  lemma NothingOverwritten(checks: Checks, s: Store, id: string, referenced: set<string>, s': Store, p: Policy)
    requires StoreOk(checks, s) && Publishable(s, id) && Published(s, id, referenced, s', p)
    ensures RefOf(p) in s.policies ==> s.policies[RefOf(p)] == p
    ensures forall ref :: ref in s.policies ==> ref in s'.policies && s'.policies[ref] == s.policies[ref]
  {
    if NeedsNewVersion(s, s.drafts[id], referenced) {
      NewVersionIsFree(s, s.drafts[id], referenced, p);
    }
  }
}
