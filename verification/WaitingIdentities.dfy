/** Identities that no row holds and that wait, recorded by an alias, for the file at their path to come back. */
module WaitingIdentities {
  import opened Options
  import opened LibraryTables
  import opened CopyEvidence
  import opened CopyIdentity

  ghost predicate HasAlias(t: Tables, i: Identity) {
    exists a :: a in t.aliases && a.identity == i
  }

  /** While the tables went from t0 to t, no row took the identity that waits for a path, and no alias was recorded for
      either of them. */
  ghost predicate Waiting(t0: Tables, t: Tables, env: Environment, path: string, i: Identity) {
    && t0.aliases <= t.aliases
    && (forall id :: !OwnedBy(t.items, i, id))
    && (forall a :: a in t.aliases && a !in t0.aliases ==> a.identity != i && a.locator != env.locator(path))
  }

  /** The identity has nothing to do with another path: nothing is recorded for it there, under another locator. */
  ghost predicate Apart(t0: Tables, env: Environment, path: string, i: Identity, other: string) {
    && env.locator(other) != env.locator(path)
    && forall a :: a in t0.aliases && a.identity == i ==> a.locator != env.locator(other)
  }

  /** Whatever waits for a path apart from this one still waits. */
  ghost predicate LeavesWaiting(t0: Tables, t: Tables, t': Tables, env: Environment, path: string) {
    forall other, i :: Waiting(t0, t, env, other, i) && HasAlias(t0, i) && Apart(t0, env, other, i, path) ==>
      Waiting(t0, t', env, other, i)
  }

  lemma CandidatesHaveAliases(t: Tables, env: Environment, q: Request, i: Identity)
    requires i in FreeCandidates(t, env, q)
    ensures exists a :: a in t.aliases && a.identity == i && a.locator == env.locator(q.path)
  {
    var search := Search(q.item.source, Some(env.locator(q.path)), false);
    var evidence := EvidenceOf(q.item.kind, q.item.source, q.path, q.stat, q.withSample);
    AcceptedIsFound(t.aliases, search, evidence, i);
    var e :| e in MatchedEvidence(t.aliases, search, evidence, i);
  }

  lemma ResolutionLeavesWaiting(t0: Tables, t: Tables, t': Tables, env: Environment, q: Request, r: Resolution)
    requires q.id in t.items && q.item.kind == Local && ResolveStep(t, t', env, q, r)
    requires q.item.identity.Some? ==> q.item.identity == t.items[q.id].identity
    ensures LeavesWaiting(t0, t, t', env, q.path)
  {
    forall other, i | Waiting(t0, t, env, other, i) && HasAlias(t0, i) && Apart(t0, env, other, i, q.path)
      ensures Waiting(t0, t', env, other, i)
    {
      assert Mentions(t, i);
      if q.item.identity.None? && i in FreeCandidates(t, env, q) {
        CandidatesHaveAliases(t, env, q, i);
        assert false;
      }
      assert q.item.identity == Some(i) ==> OwnedBy(t.items, i, q.id);
      hide FreeCandidates;
      assert r.identity != Some(i);
      forall id ensures !OwnedBy(t'.items, i, id) {
        assert !OwnedBy(t.items, i, id);
      }
      forall a | a in t'.aliases && a !in t0.aliases ensures a.identity != i && a.locator != env.locator(other) {
        if a !in t.aliases { assert a in NewAliases(env, q.item, r.identity.value, q.path, q.stat, q.withSample); }
      }
    }
  }

  /** When its file comes, the only identity recorded for it is free. */
  lemma WaitingIsFree(t0: Tables, t: Tables, env: Environment, q: Request, i: Identity)
    requires Waiting(t0, t, env, q.path, i) && i !in q.blocked
    requires AcceptedIdentities(t0.aliases, Search(q.item.source, Some(env.locator(q.path)), false),
                                EvidenceOf(q.item.kind, q.item.source, q.path, q.stat, q.withSample)) == {i}
    ensures FreeCandidates(t, env, q) == {i}
  {
    SameAccepted(t0, t, Search(q.item.source, Some(env.locator(q.path)), false),
                 EvidenceOf(q.item.kind, q.item.source, q.path, q.stat, q.withSample));
  }

  /** Aliases recorded for other locators do not show in a search. */
  lemma SameAccepted(t0: Tables, t: Tables, search: Search, evidence: seq<Evidence>)
    requires t0.aliases <= t.aliases && search.locator.Some?
    requires forall a :: a in t.aliases && a !in t0.aliases ==> a.locator != search.locator.value
    ensures AcceptedIdentities(t.aliases, search, evidence) == AcceptedIdentities(t0.aliases, search, evidence)
  {
    forall i ensures i in AcceptedIdentities(t.aliases, search, evidence) <==>
                     i in AcceptedIdentities(t0.aliases, search, evidence) {
      AcceptedIsFound(t.aliases, search, evidence, i);
      AcceptedIsFound(t0.aliases, search, evidence, i);
      assert MatchedEvidence(t.aliases, search, evidence, i) == MatchedEvidence(t0.aliases, search, evidence, i);
    }
  }
}
