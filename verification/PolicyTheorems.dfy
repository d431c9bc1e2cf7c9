/** What any sequence of draft and publish calls keeps. */
module PolicyTheorems {
  import opened Logs
  import opened PolicyVersions
  import opened PolicyRegistry

  /** One call: a draft created, a draft published, or a failed call that changed nothing. */
  ghost predicate StoreStep(checks: Checks, s: Store, s': Store) {
    || s' == s
    || (exists pack, role, patch, id :: MayCreate(checks, s, pack, role, patch) && Created(s, pack, role, patch, s', id))
    || (exists id, referenced, p :: Publishable(s, id) && Published(s, id, referenced, s', p) && ValidPolicy(checks, p))
  }

  /** The stores seen between the calls. */
  ghost predicate History(checks: Checks, h: seq<Store>) {
    h != [] && StoreOk(checks, h[0]) && forall i :: 0 <= i < |h| - 1 ==> StepAt(checks, h, i)
  }

  ghost predicate StepAt(checks: Checks, h: seq<Store>, i: nat)
    requires i + 1 < |h|
  {
    StoreStep(checks, h[i], h[i + 1])
  }

  lemma CreateKeepsStore(checks: Checks, s: Store, pack: string, role: string, patch: Patch, s': Store, id: string)
    requires StoreOk(checks, s) && MayCreate(checks, s, pack, role, patch) && Created(s, pack, role, patch, s', id)
    ensures StoreOk(checks, s')
  {
  }

  lemma StepKeepsStore(checks: Checks, s: Store, s': Store)
    requires StoreOk(checks, s) && StoreStep(checks, s, s')
    ensures StoreOk(checks, s')
  {
    hide StoreOk, Created, Published;
    if pack, role, patch, id :| MayCreate(checks, s, pack, role, patch) && Created(s, pack, role, patch, s', id) {
      CreateKeepsStore(checks, s, pack, role, patch, s', id);
    } else if id, referenced, p :| Publishable(s, id) && Published(s, id, referenced, s', p) && ValidPolicy(checks, p) {
      PublishKeepsStore(checks, s, id, referenced, s', p);
    }
  }

  /** Refs keep their values, pointers stay defined, and a pointer that moves goes to a ref nobody had. */
  ghost predicate Forward(s: Store, s': Store) {
    && (forall ref :: ref in s.policies ==> ref in s'.policies && s'.policies[ref] == s.policies[ref])
    && (forall pack, role :: HasPointer(s, pack, role) ==>
          && HasPointer(s', pack, role)
          && (s'.packs[pack][role] != s.packs[pack][role] ==> s'.packs[pack][role] !in s.policies))
    && (forall id :: id in s.drafts ==> id in s'.drafts && s'.drafts[id].baseRef == s.drafts[id].baseRef
                                        && s'.drafts[id].pack == s.drafts[id].pack && s'.drafts[id].role == s.drafts[id].role)
  }

  lemma PublishForward(checks: Checks, s: Store, id: string, referenced: set<string>, s': Store, p: Policy)
    requires StoreOk(checks, s) && Publishable(s, id) && Published(s, id, referenced, s', p)
    ensures Forward(s, s')
  {
    NothingOverwritten(checks, s, id, referenced, s', p);
    hide StoreOk, IsRelease, RefOf;
    var d := s.drafts[id];
    forall pack, role | HasPointer(s, pack, role)
      ensures HasPointer(s', pack, role)
      ensures s'.packs[pack][role] != s.packs[pack][role] ==> s'.packs[pack][role] !in s.policies
    {
      hide Publishable;
      PointerMoved(s, s', d.pack, d.role, RefOf(p), pack, role);
    }
  }

  /** Only the one pointer moves. */
  lemma PointerMoved(s: Store, s': Store, pack: string, role: string, ref: string, otherPack: string, otherRole: string)
    requires HasPointer(s, pack, role) && s'.packs == s.packs[pack := s.packs[pack][role := ref]]
    requires HasPointer(s, otherPack, otherRole)
    ensures HasPointer(s', otherPack, otherRole)
    ensures s'.packs[otherPack][otherRole] ==
            if (otherPack, otherRole) == (pack, role) then ref else s.packs[otherPack][otherRole]
  {
  }

  lemma StepForward(checks: Checks, s: Store, s': Store)
    requires StoreOk(checks, s) && StoreStep(checks, s, s')
    ensures Forward(s, s')
  {
    hide StoreOk, Published;
    if pack, role, patch, id :| MayCreate(checks, s, pack, role, patch) && Created(s, pack, role, patch, s', id) {
      assert s'.packs == s.packs && s'.policies == s.policies;
    } else if id, referenced, p :| Publishable(s, id) && Published(s, id, referenced, s', p) && ValidPolicy(checks, p) {
      PublishForward(checks, s, id, referenced, s', p);
    }
  }

  lemma {:induction false} AllStoresOk(checks: Checks, h: seq<Store>, i: nat)
    requires History(checks, h) && i < |h|
    ensures StoreOk(checks, h[i])
  {
    if i > 0 {
      AllStoresOk(checks, h, i - 1);
      assert StepAt(checks, h, i - 1);
      StepKeepsStore(checks, h[i - 1], h[i]);
    }
  }

  /** No call sequence ever changes what a published ref names. */
  lemma {:induction false} RefsAreImmutable(checks: Checks, h: seq<Store>, i: nat, j: nat)
    requires History(checks, h) && i <= j < |h|
    ensures forall ref :: ref in h[i].policies ==> ref in h[j].policies && h[j].policies[ref] == h[i].policies[ref]
    ensures forall pack, role :: HasPointer(h[i], pack, role) ==> HasPointer(h[j], pack, role)
    ensures forall id :: id in h[i].drafts ==>
              id in h[j].drafts && h[j].drafts[id].baseRef == h[i].drafts[id].baseRef
              && h[j].drafts[id].pack == h[i].drafts[id].pack && h[j].drafts[id].role == h[i].drafts[id].role
  {
    if i < j {
      RefsAreImmutable(checks, h, i, j - 1);
      AllStoresOk(checks, h, j - 1);
      assert StepAt(checks, h, j - 1);
      StepForward(checks, h[j - 1], h[j]);
    }
  }

  /** Once a pack's pointer has left a ref it never comes back to it. */
  lemma {:induction false} PointersNeverReturn(checks: Checks, h: seq<Store>, pack: string, role: string, i: nat, j: nat, k: nat)
    requires History(checks, h) && i <= j <= k < |h| && HasPointer(h[i], pack, role)
    requires HasPointer(h[j], pack, role) && h[j].packs[pack][role] != h[i].packs[pack][role]
    ensures HasPointer(h[k], pack, role) && h[k].packs[pack][role] != h[i].packs[pack][role]
    decreases k - j
  {
    if j < k {
      PointersNeverReturn(checks, h, pack, role, i, j, k - 1);
      hide StoreOk, StoreStep;
      AllStoresOk(checks, h, i);
      AllStoresOk(checks, h, k - 1);
      PointerResolves(checks, h[i], pack, role);
      RefStays(checks, h, i, k - 1, h[i].packs[pack][role]);
      assert StepAt(checks, h, k - 1);
      PointerStaysAway(checks, h[k - 1], h[k], pack, role, h[i].packs[pack][role]);
    }
  }

  lemma RefStays(checks: Checks, h: seq<Store>, i: nat, j: nat, ref: string)
    requires History(checks, h) && i <= j < |h| && ref in h[i].policies
    ensures ref in h[j].policies
  {
    hide History;
    RefsAreImmutable(checks, h, i, j);
  }

  lemma PointerStaysAway(checks: Checks, s: Store, s': Store, pack: string, role: string, ref: string)
    requires StoreOk(checks, s) && StoreStep(checks, s, s') && HasPointer(s, pack, role)
    requires s.packs[pack][role] != ref && ref in s.policies
    ensures HasPointer(s', pack, role) && s'.packs[pack][role] != ref
  {
    hide StoreOk, StoreStep;
    StepForward(checks, s, s');
  }

  lemma PointerResolves(checks: Checks, s: Store, pack: string, role: string)
    requires StoreOk(checks, s) && HasPointer(s, pack, role)
    ensures s.packs[pack][role] in s.policies
  {
  }

  /** Publishing changed content moves the pointer off the base it was drafted on. */
  lemma ContentChangeMovesPointer(checks: Checks, s: Store, id: string, referenced: set<string>, s': Store, p: Policy)
    requires StoreOk(checks, s) && Publishable(s, id) && Published(s, id, referenced, s', p)
    requires s.drafts[id].baseRef in s.policies && s.policies[s.drafts[id].baseRef] != s.drafts[id].policy
    ensures var d := s.drafts[id]; HasPointer(s', d.pack, d.role) && s'.packs[d.pack][d.role] != d.baseRef
  {
    if NeedsNewVersion(s, s.drafts[id], referenced) {
      NewVersionIsFree(s, s.drafts[id], referenced, p);
    }
  }

  /**
    Of two drafts on one base, once one with changed content is published the other never can be: at most one
    content change wins.
  */
  lemma AtMostOneContentChange(checks: Checks, h: seq<Store>, i: nat, x: string, referenced: set<string>, p: Policy,
                               y: string, j: nat)
    requires History(checks, h) && i + 1 <= j < |h|
    requires Publishable(h[i], x) && Published(h[i], x, referenced, h[i + 1], p)
    requires h[i].drafts[x].baseRef in h[i].policies && h[i].policies[h[i].drafts[x].baseRef] != h[i].drafts[x].policy
    requires y in h[i].drafts && h[i].drafts[y].pack == h[i].drafts[x].pack && h[i].drafts[y].role == h[i].drafts[x].role
    requires h[i].drafts[y].baseRef == h[i].drafts[x].baseRef
    ensures !Publishable(h[j], y)
  {
    hide StoreOk, Published, StoreStep;
    var d := h[i].drafts[x];
    AllStoresOk(checks, h, i);
    ContentChangeMovesPointer(checks, h[i], x, referenced, h[i + 1], p);
    PointersNeverReturn(checks, h, d.pack, d.role, i, i + 1, j);
    RefsAreImmutable(checks, h, i, j);
  }
}
