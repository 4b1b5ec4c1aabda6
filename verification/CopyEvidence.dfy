/** Alias evidence: which identities a file on disk may belong to. */
module CopyEvidence {
  import opened Options
  import opened LibraryTables

  /** The evidence a file offers, strongest scheme first; nothing for cloud rows, missing or special files. */
  function EvidenceOf(kind: SourceKind, source: nat, path: string, stat: Option<FileStat>,
                      withSample: bool): (evidence: seq<Evidence>)
    ensures forall e :: e in evidence && e.Sample? ==>
            withSample && stat.Some? && stat.value.sample == Some(e.digest) && e.source == source
  {
    if kind == Cloud || path == "" || stat.None? || !stat.value.regular then []
    else
      var s := stat.value;
      (if s.ino > 0
       then [InodeV2(source, s.dev, s.ino, s.size, s.mtimeNs, s.ctimeNs), InodeV1(source, s.dev, s.ino)]
       else []) +
      (if withSample && s.sample.Some? then [Sample(source, s.sample.value)] else [])
  }

  predicate HasSample(evidence: seq<Evidence>) {
    exists e :: e in evidence && e.Sample?
  }

  /** Whether the matched part of the evidence is enough: a sample decides when there is one, otherwise
      every inode scheme that the file offers has to agree. */
  predicate Sufficient(evidence: seq<Evidence>, matched: set<Evidence>) {
    if HasSample(evidence) then exists e :: e in evidence && e.Sample? && e in matched
    else
      && ((exists e :: e in evidence && e.InodeV2?) ==> exists e :: e in evidence && e.InodeV2? && e in matched)
      && ((exists e :: e in evidence && e.InodeV1?) ==> exists e :: e in evidence && e.InodeV1? && e in matched)
  }

  /** How a search is restricted: to one locator, and to files that could be sampled. */
  datatype Search = Search(source: nat, locator: Option<string>, needSample: bool)

  predicate Supports(a: Alias, search: Search, e: Evidence) {
    a.source == search.source && a.evidence == e && (search.locator.Some? ==> a.locator == search.locator.value)
  }

  function MatchedEvidence(aliases: set<Alias>, search: Search, evidence: seq<Evidence>,
                           identity: Identity): set<Evidence> {
    set a | a in aliases && a.identity == identity && a.evidence in evidence &&
        Supports(a, search, a.evidence) :: a.evidence
  }

  /** The identities an alias search accepts for the evidence. */
  predicate Accepted(aliases: set<Alias>, search: Search, evidence: seq<Evidence>, identity: Identity) {
    && search.locator != Some("")
    && (search.needSample ==> HasSample(evidence))
    && MatchedEvidence(aliases, search, evidence, identity) != {}
    && Sufficient(evidence, MatchedEvidence(aliases, search, evidence, identity))
  }

  function AcceptedIdentities(aliases: set<Alias>, search: Search, evidence: seq<Evidence>): set<Identity> {
    set a | a in aliases && Accepted(aliases, search, evidence, a.identity) :: a.identity
  }

  lemma AcceptedIsFound(aliases: set<Alias>, search: Search, evidence: seq<Evidence>, identity: Identity)
    ensures identity in AcceptedIdentities(aliases, search, evidence) <==> Accepted(aliases, search, evidence, identity)
  {
    if Accepted(aliases, search, evidence, identity) {
      var e :| e in MatchedEvidence(aliases, search, evidence, identity);
      var a :| a in aliases && a.identity == identity && a.evidence == e;
      assert a in aliases && Accepted(aliases, search, evidence, a.identity);
    }
  }

  /** One lookup per piece of evidence, hits grouped by identity. */
  method GroupHits(aliases: set<Alias>, search: Search, evidence: seq<Evidence>)
                   returns (matched: map<Identity, set<Evidence>>)
    ensures forall i :: i in matched <==> MatchedEvidence(aliases, search, evidence, i) != {}
    ensures forall i :: i in matched ==> matched[i] == MatchedEvidence(aliases, search, evidence, i)
  {
    matched := map[];
    for n := 0 to |evidence|
      invariant forall i :: i in matched <==> MatchedEvidence(aliases, search, evidence[..n], i) != {}
      invariant forall i :: i in matched ==> matched[i] == MatchedEvidence(aliases, search, evidence[..n], i)
    {
      var hits := set a | a in aliases && Supports(a, search, evidence[n]) :: a.identity;
      MatchedStep(aliases, search, evidence, n);
      hide MatchedEvidence; hide Supports;
      matched := map i | i in matched.Keys + hits ::
        (if i in matched then matched[i] else {}) + (if i in hits then {evidence[n]} else {});
    }
    assert evidence[..|evidence|] == evidence;
  }

  /** The query loop, then the filter. */
  method FindCandidates(aliases: set<Alias>, search: Search, evidence: seq<Evidence>) returns (found: set<Identity>)
    ensures found == AcceptedIdentities(aliases, search, evidence)
    ensures forall i :: i in found <==> Accepted(aliases, search, evidence, i)
  {
    forall i ensures i in AcceptedIdentities(aliases, search, evidence) <==> Accepted(aliases, search, evidence, i) {
      AcceptedIsFound(aliases, search, evidence, i);
    }
    hide AcceptedIdentities; hide Sufficient; hide Supports;
    if evidence == [] || search.locator == Some("") {
      return {};
    }
    var matched := GroupHits(aliases, search, evidence);
    if search.needSample && !HasSample(evidence) {
      return {};
    }
    found := set i | i in matched && Sufficient(evidence, matched[i]);
  }

  lemma MatchedStep(aliases: set<Alias>, search: Search, evidence: seq<Evidence>, n: nat)
    requires n < |evidence|
    ensures var hits := set a | a in aliases && Supports(a, search, evidence[n]) :: a.identity;
            forall i :: MatchedEvidence(aliases, search, evidence[..n + 1], i) ==
                        MatchedEvidence(aliases, search, evidence[..n], i) + (if i in hits then {evidence[n]} else {})
  {
    assert evidence[..n + 1] == evidence[..n] + [evidence[n]];
  }

  // ----- what new aliases can and cannot change -----

  /** A search for one identity looks only at that identity's aliases. */
  lemma AcceptedFrame(aliases: set<Alias>, aliases': set<Alias>, search: Search, evidence: seq<Evidence>,
                      identity: Identity)
    requires forall a: Alias :: a.identity == identity ==> (a in aliases <==> a in aliases')
    ensures Accepted(aliases, search, evidence, identity) <==> Accepted(aliases', search, evidence, identity)
  {
    assert MatchedEvidence(aliases, search, evidence, identity) ==
        MatchedEvidence(aliases', search, evidence, identity);
  }

  /** A search that needs a sample is decided by sample aliases alone. */
  lemma SampledSearchFrame(aliases: set<Alias>, aliases': set<Alias>, search: Search, evidence: seq<Evidence>,
                           identity: Identity)
    requires search.needSample
    requires forall a: Alias :: a.evidence.Sample? ==> (a in aliases <==> a in aliases')
    ensures Accepted(aliases, search, evidence, identity) <==> Accepted(aliases', search, evidence, identity)
  {
    var m, m' := MatchedEvidence(aliases, search, evidence, identity),
        MatchedEvidence(aliases', search, evidence, identity);
    forall e: Evidence | e.Sample? ensures e in m <==> e in m' {
      if e in m {
        var a :| a in aliases && a.identity == identity && a.evidence == e && e in evidence && Supports(a, search, e);
        assert a in aliases';
      }
      if e in m' {
        var a :| a in aliases' && a.identity == identity && a.evidence == e && e in evidence && Supports(a, search, e);
        assert a in aliases;
      }
    }
  }

  /** What is accepted stays accepted when aliases are added. */
  lemma AcceptedGrows(aliases: set<Alias>, aliases': set<Alias>, search: Search, evidence: seq<Evidence>,
                      identity: Identity)
    requires aliases <= aliases' && Accepted(aliases, search, evidence, identity)
    ensures Accepted(aliases', search, evidence, identity)
  {
    var m, m' := MatchedEvidence(aliases, search, evidence, identity),
        MatchedEvidence(aliases', search, evidence, identity);
    assert m <= m';
    var e :| e in m;
    assert e in m';
  }
}
