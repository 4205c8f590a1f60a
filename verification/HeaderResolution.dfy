/** Resolving headers against a constructed resolver: ranking, decisions, and independence of spec order. */
module HeaderResolution {
  import opened Wrappers
  import opened Ordering
  import opened SchemaResolver

  // ---------- ranking ----------

  /** Best score among the first `n` targets, with the first spelling that reaches it. */
  function BestTarget(rules: Rules, source: string, name: string, targets: seq<(string, string)>, n: nat): (real, string)
    requires n <= |targets|
  {
    if n == 0 then (-1.0, name)
    else
      var best, score := BestTarget(rules, source, name, targets, n - 1), rules.score(source, targets[n - 1].0);
      if score > best.0 then (score, targets[n - 1].1) else best
  }

  function CandidateFor(rules: Rules, source: string, spec: FieldSpec): Candidate {
    var targets := Targets(rules, spec);
    var best := BestTarget(rules, source, spec.canonicalName, targets, |targets|);
    Candidate(spec.canonicalName, best.0, best.1)
  }

  /** Higher confidence first, then by name. */
  predicate Precedes(a: Candidate, b: Candidate) {
    a.confidence > b.confidence || (a.confidence == b.confidence && StringLe(a.field, b.field))
  }

  lemma PrecedesTotal()
    ensures TotalOrder(Precedes)
  {
    StringOrder();
  }

  function Scores(rules: Rules, source: string, specs: seq<FieldSpec>): seq<Candidate> {
    Map(s => CandidateFor(rules, source, s), specs)
  }

  function Ranked(rules: Rules, source: string, specs: seq<FieldSpec>): seq<Candidate> {
    PrecedesTotal();
    Sort(Precedes, Scores(rules, source, specs))
  }

  method RankFuzzyCandidates(r: Resolver, source: string) returns (ranked: seq<Candidate>)
    requires FieldsOf(r.rules, r.specs, r.fields)
    ensures ranked == Ranked(r.rules, source, r.specs)
  {
    var scored: seq<Candidate> := [];
    for i := 0 to |r.fields|
      invariant scored == Scores(r.rules, source, r.specs[..i])
    {
      var field := r.fields[i];
      var best := (-1.0, field.spec.canonicalName);
      for j := 0 to |field.targets|
        invariant best == BestTarget(r.rules, source, field.spec.canonicalName, field.targets, j)
      {
        var score := r.rules.score(source, field.targets[j].0);
        if score > best.0 {
          best := (score, field.targets[j].1);
        }
      }
      assert r.specs[..i + 1] == r.specs[..i] + [r.specs[i]];
      scored := scored + [Candidate(field.spec.canonicalName, best.0, best.1)];
    }
    assert r.specs[..|r.specs|] == r.specs;
    PrecedesTotal();
    ranked := Sort(Precedes, scored);
  }

  lemma {:induction false} BestTargetMeaning(rules: Rules, source: string, name: string, targets: seq<(string, string)>, n: nat)
    requires Scored(rules) && 0 < n <= |targets|
    ensures var best := BestTarget(rules, source, name, targets, n);
            && (forall i :: 0 <= i < n ==> rules.score(source, targets[i].0) <= best.0)
            && (exists i :: 0 <= i < n && best == (rules.score(source, targets[i].0), targets[i].1)
                            && forall k :: 0 <= k < i ==> rules.score(source, targets[k].0) < best.0)
  {
    var best := BestTarget(rules, source, name, targets, n);
    if n > 1 {
      BestTargetMeaning(rules, source, name, targets, n - 1);
      var before := BestTarget(rules, source, name, targets, n - 1);
      var i :| 0 <= i < n - 1 && before == (rules.score(source, targets[i].0), targets[i].1)
               && forall k :: 0 <= k < i ==> rules.score(source, targets[k].0) < before.0;
      if best == before {
        assert best == (rules.score(source, targets[i].0), targets[i].1);
      } else {
        assert best == (rules.score(source, targets[n - 1].0), targets[n - 1].1);
      }
    } else {
      assert BestTarget(rules, source, name, targets, 0) == (-1.0, name);
      assert 0.0 <= rules.score(source, targets[0].0) <= 1.0;
      assert best == (rules.score(source, targets[0].0), targets[0].1);
    }
  }

  /** Targets are exactly the tokens the field owns. */
  lemma {:induction false} TargetTokens(rules: Rules, spec: FieldSpec, n: nat, token: string)
    requires n <= |spec.aliases|
    ensures MatchTargets(rules, spec, n) != []
    ensures (exists i :: 0 <= i < |MatchTargets(rules, spec, n)| && MatchTargets(rules, spec, n)[i].0 == token) <==>
              token == rules.normalize(spec.canonicalName) || FirstAlias(rules, spec, token, n) < n
  {
    var targets := MatchTargets(rules, spec, n);
    if n == 0 {
      assert targets[0].0 == rules.normalize(spec.canonicalName);
    } else {
      TargetTokens(rules, spec, n - 1, token);
      var front := MatchTargets(rules, spec, n - 1);
      var alias := rules.normalize(spec.aliases[n - 1]);
      if |targets| > |front| {
        assert targets[|front|].0 == alias;
      }
      if i :| 0 <= i < |front| && front[i].0 == token {
        assert targets[i].0 == token;
      }
      if i :| 0 <= i < |targets| && targets[i].0 == token {
        assert i < |front| ==> front[i].0 == token;
      }
    }
  }

  /** A candidate's confidence is the best score over the tokens its field owns. */
  lemma ConfidenceIsBest(rules: Rules, source: string, spec: FieldSpec)
    requires Scored(rules)
    ensures forall token :: Owns(rules, spec, token) ==>
              rules.score(source, token) <= CandidateFor(rules, source, spec).confidence
    ensures exists token :: Owns(rules, spec, token) &&
              rules.score(source, token) == CandidateFor(rules, source, spec).confidence
    ensures 0.0 <= CandidateFor(rules, source, spec).confidence <= 1.0
  {
    var targets := Targets(rules, spec);
    var n := |spec.aliases|;
    TargetTokens(rules, spec, n, "");
    BestTargetMeaning(rules, source, spec.canonicalName, targets, |targets|);
    forall token | Owns(rules, spec, token)
      ensures rules.score(source, token) <= CandidateFor(rules, source, spec).confidence
    {
      TargetTokens(rules, spec, n, token);
      OwnedIsFound(rules, spec, token);
      var i :| 0 <= i < |targets| && targets[i].0 == token;
    }
    var best := BestTarget(rules, source, spec.canonicalName, targets, |targets|);
    var i :| 0 <= i < |targets| && best == (rules.score(source, targets[i].0), targets[i].1);
    var token := targets[i].0;
    TargetTokens(rules, spec, n, token);
    OwnedIsFound(rules, spec, token);
    assert Owns(rules, spec, token);
  }

  lemma OwnedIsFound(rules: Rules, spec: FieldSpec, token: string)
    ensures Owns(rules, spec, token) <==>
              token == rules.normalize(spec.canonicalName) || FirstAlias(rules, spec, token, |spec.aliases|) < |spec.aliases|
  {
    var n := |spec.aliases|;
    var k := FirstAlias(rules, spec, token, n);
    if k < n {
      assert spec.aliases[k] in spec.aliases;
    }
    if a :| a in spec.aliases && rules.normalize(a) == token {
      var j :| 0 <= j < n && spec.aliases[j] == a;
    }
  }

  // ---------- decisions ----------

  function Credible(ranked: seq<Candidate>, threshold: real): seq<Candidate> {
    if ranked == [] then []
    else
      var last := ranked[|ranked| - 1];
      Credible(ranked[..|ranked| - 1], threshold) + if last.confidence >= threshold then [last] else []
  }

  function WithinMargin(credible: seq<Candidate>, best: real, margin: real): seq<Candidate> {
    Filter((c: Candidate) => best - c.confidence < margin, credible)
  }

  predicate IsAmbiguous(credible: seq<Candidate>, margin: real) {
    |credible| >= 2 && credible[0].confidence - credible[1].confidence < margin
  }

  function FuzzyDecision(rules: Rules, source: string, normalized: string, ranked: seq<Candidate>): Resolution {
    if ranked == [] then Resolution(source, normalized, Unresolved, None, None, 0.0, [])
    else
      var best := ranked[0];
      if best.confidence < rules.threshold then
        Resolution(source, normalized, Unresolved, None, None, best.confidence, [best])
      else
        var credible := Credible(ranked, rules.threshold);
        if IsAmbiguous(credible, rules.margin) then
          Resolution(source, normalized, Ambiguous, None, None, best.confidence,
                     WithinMargin(credible, credible[0].confidence, rules.margin))
        else
          Resolution(source, normalized, Resolved, Some(best.field), Some(Fuzzy), best.confidence, [best])
  }

  function ResolveField(rules: Rules, specs: seq<FieldSpec>, lookup: Lookup, source: string): Resolution {
    var normalized := rules.normalize(source);
    if normalized == "" then Resolution(source, normalized, Unresolved, None, None, 0.0, [])
    else if normalized in lookup then
      var (name, spelling) := lookup[normalized];
      Resolution(source, normalized, Resolved, Some(name), Some(Exact), 1.0, [Candidate(name, 1.0, spelling)])
    else FuzzyDecision(rules, source, normalized, Ranked(rules, normalized, specs))
  }

  method ResolveHeader(r: Resolver, source: string) returns (resolution: Resolution)
    requires FieldsOf(r.rules, r.specs, r.fields)
    ensures resolution == ResolveField(r.rules, r.specs, r.lookup, source)
  {
    var normalized := r.rules.normalize(source);
    if normalized == "" {
      return Resolution(source, normalized, Unresolved, None, None, 0.0, []);
    }
    if normalized in r.lookup {
      var (name, spelling) := r.lookup[normalized];
      return Resolution(source, normalized, Resolved, Some(name), Some(Exact), 1.0, [Candidate(name, 1.0, spelling)]);
    }
    var ranked := RankFuzzyCandidates(r, normalized);
    resolution := FuzzyDecision(r.rules, source, normalized, ranked);
  }

  // ---------- independence of spec order ----------

  lemma CoherentNames(rules: Rules, specs: seq<FieldSpec>)
    requires Coherent(rules, specs)
    ensures DistinctNames(specs)
  {
    forall s, t | s in specs && t in specs && s.canonicalName == t.canonicalName ensures s == t {
      if s != t {
        SharedToken(rules, specs, s, t, rules.normalize(s.canonicalName));
        assert false;
      }
    }
  }

  lemma ScoresSeparate(rules: Rules, source: string, specs: seq<FieldSpec>)
    requires DistinctNames(specs)
    ensures Separates(Precedes, Scores(rules, source, specs))
  {
    StringOrder();
    var scores := Scores(rules, source, specs);
    forall a, b | a in scores && b in scores && Precedes(a, b) && Precedes(b, a) ensures a == b {
      var i :| 0 <= i < |specs| && scores[i] == a;
      var j :| 0 <= j < |specs| && scores[j] == b;
      assert specs[i] in specs && specs[j] in specs;
    }
  }

  lemma RankingIgnoresOrder(rules: Rules, source: string, specs: seq<FieldSpec>, shuffled: seq<FieldSpec>)
    requires DistinctNames(specs) && multiset(specs) == multiset(shuffled)
    ensures Ranked(rules, source, specs) == Ranked(rules, source, shuffled)
  {
    PrecedesTotal();
    MapMultiset(s => CandidateFor(rules, source, s), specs, shuffled);
    ScoresSeparate(rules, source, specs);
    SortIgnoresOrder(Precedes, Scores(rules, source, specs), Scores(rules, source, shuffled));
  }

  /** Sharing no token between positions is sharing none between elements, each of which occurs once. */
  lemma CoherentByElement(rules: Rules, specs: seq<FieldSpec>)
    ensures Coherent(rules, specs) <==>
              && Distinct(specs)
              && (forall s :: s in specs ==> !Owns(rules, s, ""))
              && (forall s, t, token :: s in specs && t in specs && Owns(rules, s, token) && Owns(rules, t, token) ==> s == t)
  {
    if Coherent(rules, specs) {
      forall i, j | 0 <= i < j < |specs| ensures specs[i] != specs[j] {
        var token := rules.normalize(specs[i].canonicalName);
        assert Owns(rules, specs[i], token);
      }
      forall s, t, token | s in specs && t in specs && Owns(rules, s, token) && Owns(rules, t, token) ensures s == t {
        if s != t {
          SharedToken(rules, specs, s, t, token);
          assert false;
        }
      }
    }
  }

  lemma CoherentIgnoresOrder(rules: Rules, specs: seq<FieldSpec>, shuffled: seq<FieldSpec>)
    requires multiset(specs) == multiset(shuffled)
    ensures Coherent(rules, specs) <==> Coherent(rules, shuffled)
  {
    assert forall s :: (s in specs <==> s in multiset(specs)) && (s in shuffled <==> s in multiset(shuffled));
    DistinctPermutation(specs, shuffled);
    CoherentByElement(rules, specs);
    CoherentByElement(rules, shuffled);
  }

  lemma LookupUnique(rules: Rules, specs: seq<FieldSpec>, shuffled: seq<FieldSpec>, a: Lookup, b: Lookup)
    requires multiset(specs) == multiset(shuffled)
    requires IsLookup(rules, specs, a) && IsLookup(rules, shuffled, b)
    ensures a == b
  {
    assert forall s :: (s in specs <==> s in multiset(specs)) && (s in shuffled <==> s in multiset(shuffled));
    forall t | t in a ensures t in b && b[t] == a[t] {
      var s :| s in specs && Owns(rules, s, t);
      assert s in shuffled;
    }
    forall t | t in b ensures t in a {
      var s :| s in shuffled && Owns(rules, s, t);
      assert s in specs;
    }
  }

  /** Supplying the specs in another order changes neither construction nor any decision. */
  lemma ResolutionIgnoresOrder(a: Resolver, b: Resolver, source: string)
    requires ValidResolver(a) && ValidResolver(b)
    requires a.rules == b.rules && multiset(a.specs) == multiset(b.specs)
    ensures ResolveField(a.rules, a.specs, a.lookup, source) == ResolveField(b.rules, b.specs, b.lookup, source)
  {
    LookupUnique(a.rules, a.specs, b.specs, a.lookup, b.lookup);
    CoherentNames(a.rules, a.specs);
    RankingIgnoresOrder(a.rules, a.rules.normalize(source), a.specs, b.specs);
  }

  // ---------- what a fuzzy decision means ----------

  ghost predicate Descending(ranked: seq<Candidate>) {
    forall i, j :: 0 <= i < j < |ranked| ==> ranked[i].confidence >= ranked[j].confidence
  }

  lemma {:induction false} AllCredible(ranked: seq<Candidate>, threshold: real)
    requires forall i :: 0 <= i < |ranked| ==> ranked[i].confidence >= threshold
    ensures Credible(ranked, threshold) == ranked
  {
    if ranked != [] {
      AllCredible(ranked[..|ranked| - 1], threshold);
    }
  }

  /** The credible candidates are the leading ones. */
  lemma {:induction false} CredibleLead(ranked: seq<Candidate>, threshold: real) returns (k: nat)
    requires Descending(ranked)
    ensures k <= |ranked| && Credible(ranked, threshold) == ranked[..k]
    ensures forall i :: 0 <= i < |ranked| ==> (ranked[i].confidence >= threshold <==> i < k)
  {
    var n := |ranked|;
    if n == 0 {
      k := 0;
    } else if ranked[n - 1].confidence >= threshold {
      AllCredible(ranked, threshold);
      k := n;
    } else {
      var front := ranked[..n - 1];
      k := CredibleLead(front, threshold);
      assert Credible(ranked, threshold) == Credible(front, threshold) + [];
      hide Credible;
      assert front[..k] == ranked[..k];
      assert forall i :: 0 <= i < n - 1 ==> front[i] == ranked[i];
    }
  }

  function Confidence(rules: Rules, source: string, spec: FieldSpec): real {
    CandidateFor(rules, source, spec).confidence
  }

  /** `ranked` lists each spec's candidate once, best first. */
  lemma RankedMembers(rules: Rules, source: string, specs: seq<FieldSpec>)
    requires Coherent(rules, specs)
    ensures Sorted(Precedes, Ranked(rules, source, specs)) && |Ranked(rules, source, specs)| == |specs|
    ensures Distinct(Ranked(rules, source, specs))
    ensures forall s :: s in specs ==> CandidateFor(rules, source, s) in Ranked(rules, source, specs)
    ensures forall c :: c in Ranked(rules, source, specs) ==> exists s :: s in specs && c == CandidateFor(rules, source, s)
  {
    var scores, ranked := Scores(rules, source, specs), Ranked(rules, source, specs);
    PrecedesTotal();
    CoherentNames(rules, specs);
    CoherentByElement(rules, specs);
    assert |ranked| == |multiset(ranked)| == |multiset(scores)| == |scores|;
    assert forall c :: (c in scores <==> c in multiset(scores)) && (c in ranked <==> c in multiset(ranked));
    forall i, j | 0 <= i < j < |scores| ensures scores[i] != scores[j] {
      assert specs[i] in specs && specs[j] in specs;
    }
    DistinctPermutation(scores, ranked);
    forall s | s in specs ensures CandidateFor(rules, source, s) in scores {
      var i :| 0 <= i < |specs| && specs[i] == s;
      assert scores[i] == CandidateFor(rules, source, s);
    }
    forall c | c in scores ensures exists s :: s in specs && c == CandidateFor(rules, source, s) {
      var i :| 0 <= i < |scores| && scores[i] == c;
      assert specs[i] in specs;
    }
  }

  /** The more similar field comes first, and of equally similar ones the one whose name does. */
  ghost predicate OrderedBefore(rules: Rules, source: string, s: FieldSpec, t: FieldSpec) {
    || Confidence(rules, source, s) > Confidence(rules, source, t)
    || (Confidence(rules, source, s) == Confidence(rules, source, t) && StringLe(s.canonicalName, t.canonicalName))
  }

  /** `s` meets the threshold and every other credible field is at least the margin below it. */
  ghost predicate Wins(rules: Rules, source: string, specs: seq<FieldSpec>, s: FieldSpec) {
    && s in specs && Confidence(rules, source, s) >= rules.threshold
    && forall t :: t in specs && t != s ==>
         && OrderedBefore(rules, source, s, t)
         && (Confidence(rules, source, t) >= rules.threshold ==>
               Confidence(rules, source, s) - Confidence(rules, source, t) >= rules.margin)
  }

  /** A header that is no known token: which resolver and which normalised text we talk about. */
  ghost predicate NoExactMatch(r: Resolver, source: string) {
    ValidResolver(r) && r.rules.normalize(source) != "" && r.rules.normalize(source) !in r.lookup
  }

  lemma OtherCandidate(rules: Rules, source: string, specs: seq<FieldSpec>, s: FieldSpec, t: FieldSpec, ranked: seq<Candidate>)
    returns (i: nat)
    requires DistinctNames(specs) && s in specs && t in specs && s != t && ranked != []
    requires ranked[0] == CandidateFor(rules, source, s) && CandidateFor(rules, source, t) in ranked
    ensures 0 < i < |ranked| && ranked[i] == CandidateFor(rules, source, t)
  {
    i :| 0 <= i < |ranked| && ranked[i] == CandidateFor(rules, source, t);
  }

  lemma FuzzyDecisionStatus(rules: Rules, source: string, normalized: string, ranked: seq<Candidate>)
    ensures FuzzyDecision(rules, source, normalized, ranked).status == Unresolved <==>
            ranked == [] || ranked[0].confidence < rules.threshold
    ensures FuzzyDecision(rules, source, normalized, ranked).status == Resolved ==>
              && ranked != [] && ranked[0].confidence >= rules.threshold
              && FuzzyDecision(rules, source, normalized, ranked).canonical == Some(ranked[0].field)
              && FuzzyDecision(rules, source, normalized, ranked).how == Some(Fuzzy)
  {
  }

  lemma RankedDescends(ranked: seq<Candidate>)
    requires Sorted(Precedes, ranked)
    ensures Descending(ranked)
  {
    forall i, j | 0 <= i < j < |ranked| ensures ranked[i].confidence >= ranked[j].confidence {
      assert Precedes(ranked[i], ranked[j]);
    }
  }

  /** A resolved ranking is led by a candidate that meets the threshold, and by the margin when the second one does too. */
  lemma ResolvedLead(rules: Rules, source: string, normalized: string, ranked: seq<Candidate>, i: nat)
    requires Descending(ranked) && FuzzyDecision(rules, source, normalized, ranked).status == Resolved
    requires 0 < i < |ranked|
    ensures ranked[0].confidence >= rules.threshold
    ensures ranked[i].confidence >= rules.threshold ==> ranked[0].confidence - ranked[i].confidence >= rules.margin
  {
    hide WithinMargin;
    var k := CredibleLead(ranked, rules.threshold);
    hide Credible;
    if ranked[i].confidence >= rules.threshold {
      assert ranked[..k][1] == ranked[1] && ranked[1].confidence >= ranked[i].confidence;
    }
  }

  /** In a resolved ranking the leader precedes every other spec, by the margin if that one is credible. */
  lemma LeaderPrecedes(rules: Rules, source: string, header: string, specs: seq<FieldSpec>, ranked: seq<Candidate>,
                       s: FieldSpec, t: FieldSpec)
    requires Sorted(Precedes, ranked) && DistinctNames(specs) && FuzzyDecision(rules, source, header, ranked).status == Resolved
    requires s in specs && t in specs && t != s && ranked != []
    requires ranked[0] == CandidateFor(rules, header, s) && CandidateFor(rules, header, t) in ranked
    ensures ranked[0].confidence >= rules.threshold
    ensures Precedes(ranked[0], CandidateFor(rules, header, t))
    ensures Confidence(rules, header, t) >= rules.threshold ==>
              ranked[0].confidence - Confidence(rules, header, t) >= rules.margin
  {
    RankedDescends(ranked);
    var i := OtherCandidate(rules, header, specs, s, t, ranked);
    assert Precedes(ranked[0], ranked[i]);
    ResolvedLead(rules, source, header, ranked, i);
  }

  /** A column resolved by similarity went to the best field, by the margin over every other credible one. */
  lemma FuzzyResolvedWins(r: Resolver, source: string) returns (s: FieldSpec)
    requires NoExactMatch(r, source)
    requires ResolveField(r.rules, r.specs, r.lookup, source).status == Resolved
    ensures Wins(r.rules, r.rules.normalize(source), r.specs, s)
    ensures ResolveField(r.rules, r.specs, r.lookup, source).canonical == Some(s.canonicalName)
    ensures ResolveField(r.rules, r.specs, r.lookup, source).how == Some(Fuzzy)
  {
    var header := r.rules.normalize(source);
    var ranked := Ranked(r.rules, header, r.specs);
    RankedMembers(r.rules, header, r.specs);
    CoherentNames(r.rules, r.specs);
    FuzzyDecisionStatus(r.rules, source, header, ranked);
    hide Ranked, Coherent, IsLookup, FieldsOf, Confidence, FuzzyDecision, DistinctNames, Sorted, Distinct, Precedes;
    assert ranked[0] in ranked;
    s :| s in r.specs && ranked[0] == CandidateFor(r.rules, header, s);
    forall t | t in r.specs && t != s
      ensures Precedes(ranked[0], CandidateFor(r.rules, header, t))
      ensures Confidence(r.rules, header, t) >= r.rules.threshold ==>
                ranked[0].confidence - Confidence(r.rules, header, t) >= r.rules.margin
    {
      LeaderPrecedes(r.rules, source, header, r.specs, ranked, s, t);
    }
  }

  lemma PrecedesAll(ranked: seq<Candidate>, c: Candidate)
    requires Sorted(Precedes, ranked) && Separates(Precedes, ranked) && c in ranked
    requires forall d :: d in ranked && d != c ==> Precedes(c, d)
    ensures ranked[0] == c
  {
    var i :| 0 <= i < |ranked| && ranked[i] == c;
    assert ranked[0] in ranked;
  }

  /** With every rival below the margin, the first candidate is the decision. */
  lemma LeaderDecides(rules: Rules, source: string, header: string, ranked: seq<Candidate>)
    requires ranked != [] && Descending(ranked) && ranked[0].confidence >= rules.threshold
    requires forall i :: 0 < i < |ranked| && ranked[i].confidence >= rules.threshold ==>
               ranked[0].confidence - ranked[i].confidence >= rules.margin
    ensures FuzzyDecision(rules, source, header, ranked)
         == Resolution(source, header, Resolved, Some(ranked[0].field), Some(Fuzzy), ranked[0].confidence, [ranked[0]])
  {
    var k := CredibleLead(ranked, rules.threshold);
  }

  /** A winner's rivals, as the ranking lists them. */
  lemma WinnerLeads(rules: Rules, header: string, specs: seq<FieldSpec>, s: FieldSpec, ranked: seq<Candidate>)
    requires Coherent(rules, specs) && Wins(rules, header, specs, s) && ranked == Ranked(rules, header, specs)
    ensures ranked != [] && ranked[0] == CandidateFor(rules, header, s) && Descending(ranked)
    ensures forall i :: 0 < i < |ranked| && ranked[i].confidence >= rules.threshold ==>
              ranked[0].confidence - ranked[i].confidence >= rules.margin
  {
    var c := CandidateFor(rules, header, s);
    RankedMembers(rules, header, specs);
    RankedSeparate(rules, header, specs);
    forall d | d in ranked && d != c
      ensures Precedes(c, d) && (d.confidence >= rules.threshold ==> c.confidence - d.confidence >= rules.margin)
    {
      var t :| t in specs && d == CandidateFor(rules, header, t);
    }
    PrecedesAll(ranked, c);
    forall i | 0 < i < |ranked| ensures ranked[i] in ranked && ranked[i] != c {
    }
  }

  lemma RankedSeparate(rules: Rules, header: string, specs: seq<FieldSpec>)
    requires Coherent(rules, specs)
    ensures Separates(Precedes, Ranked(rules, header, specs))
  {
    CoherentNames(rules, specs);
    ScoresSeparate(rules, header, specs);
    PrecedesTotal();
    var scores, ranked := Scores(rules, header, specs), Ranked(rules, header, specs);
    assert forall c :: c in ranked ==> c in multiset(ranked);
    assert forall c :: c in multiset(scores) ==> c in scores;
  }

  /** A field that wins is the one a header resolves to. */
  lemma WinnerIsResolved(r: Resolver, source: string, s: FieldSpec)
    requires NoExactMatch(r, source) && Wins(r.rules, r.rules.normalize(source), r.specs, s)
    ensures ResolveField(r.rules, r.specs, r.lookup, source).status == Resolved
    ensures ResolveField(r.rules, r.specs, r.lookup, source).canonical == Some(s.canonicalName)
    ensures ResolveField(r.rules, r.specs, r.lookup, source).how == Some(Fuzzy)
  {
    var header := r.rules.normalize(source);
    var ranked := Ranked(r.rules, header, r.specs);
    WinnerLeads(r.rules, header, r.specs, s, ranked);
    LeaderDecides(r.rules, source, header, ranked);
  }

  /** Without an exact match a header is unresolved just when no field meets the threshold. */
  lemma FuzzyUnresolved(r: Resolver, source: string)
    requires NoExactMatch(r, source)
    ensures ResolveField(r.rules, r.specs, r.lookup, source).status == Unresolved <==>
              forall s :: s in r.specs ==> Confidence(r.rules, r.rules.normalize(source), s) < r.rules.threshold
  {
    var header := r.rules.normalize(source);
    var ranked := Ranked(r.rules, header, r.specs);
    RankedMembers(r.rules, header, r.specs);
    FuzzyDecisionStatus(r.rules, source, header, ranked);
    RankedDescends(ranked);
    hide Ranked, Coherent, IsLookup, FieldsOf, Confidence, FuzzyDecision;
    if ranked != [] {
      assert ranked[0] in ranked;
      forall s | s in r.specs ensures Confidence(r.rules, header, s) <= ranked[0].confidence {
        var i :| 0 <= i < |ranked| && ranked[i] == CandidateFor(r.rules, header, s);
      }
    } else {
      assert r.specs == [];
    }
  }

  /** A known token always resolves exactly, to its one owner; a blank header never resolves. */
  lemma ExactMatchResolves(r: Resolver, source: string, s: FieldSpec)
    requires ValidResolver(r) && s in r.specs && Owns(r.rules, s, r.rules.normalize(source))
    ensures var resolution := ResolveField(r.rules, r.specs, r.lookup, source);
            resolution.status == Resolved && resolution.canonical == Some(s.canonicalName) && resolution.how == Some(Exact)
  {
  }

  /** Whatever resolves, resolves to one of the configured fields. */
  lemma ResolvedIsConfigured(r: Resolver, source: string)
    requires ValidResolver(r)
    ensures var resolution := ResolveField(r.rules, r.specs, r.lookup, source);
            if resolution.status == Resolved
            then resolution.canonical.Some? && exists s :: s in r.specs && s.canonicalName == resolution.canonical.value
            else resolution.canonical == None
  {
    if NoExactMatch(r, source) && ResolveField(r.rules, r.specs, r.lookup, source).status == Resolved {
      var s := FuzzyResolvedWins(r, source);
    }
  }

  // ---------- whole headers ----------

  datatype Collision = Collision(field: string, sources: seq<string>)

  datatype Schema = Schema(resolutions: seq<Resolution>, missing: seq<string>, collisions: seq<Collision>)

  predicate ResolvesTo(resolution: Resolution, name: string) {
    resolution.status == Resolved && resolution.canonical == Some(name)
  }

  /** The columns that resolved to `name`. */
  function SourcesOf(resolutions: seq<Resolution>, name: string): seq<string> {
    if resolutions == [] then []
    else
      var last := resolutions[|resolutions| - 1];
      SourcesOf(resolutions[..|resolutions| - 1], name) + if ResolvesTo(last, name) then [last.source] else []
  }

  /** The fields some column resolved to, in first-seen order. */
  function ResolvedNames(resolutions: seq<Resolution>): seq<string> {
    if resolutions == [] then []
    else
      var front, last := ResolvedNames(resolutions[..|resolutions| - 1]), resolutions[|resolutions| - 1];
      if last.status == Resolved && last.canonical.Some? && last.canonical.value !in front
      then front + [last.canonical.value] else front
  }

  function CollisionsAmong(resolutions: seq<Resolution>, names: seq<string>): seq<Collision> {
    if names == [] then []
    else
      var last := names[|names| - 1];
      CollisionsAmong(resolutions, names[..|names| - 1])
        + if |SourcesOf(resolutions, last)| > 1 then [Collision(last, SourcesOf(resolutions, last))] else []
  }

  function CollisionsOf(resolutions: seq<Resolution>): seq<Collision> {
    StringOrder();
    CollisionsAmong(resolutions, Sort(StringLe, ResolvedNames(resolutions)))
  }

  function MissingAmong(resolutions: seq<Resolution>, names: seq<string>): seq<string> {
    if names == [] then []
    else
      var last := names[|names| - 1];
      MissingAmong(resolutions, names[..|names| - 1]) + if SourcesOf(resolutions, last) == [] then [last] else []
  }

  /** The dictionary of resolved sources. */
  ghost predicate IsSourceMap(sources: map<string, seq<string>>, resolutions: seq<Resolution>) {
    && (forall n :: n in sources <==> n in ResolvedNames(resolutions))
    && (forall n :: n in sources ==> sources[n] == SourcesOf(resolutions, n))
    && (forall n :: n !in sources ==> SourcesOf(resolutions, n) == [])
  }

  lemma SourceMapStep(sources: map<string, seq<string>>, front: seq<Resolution>, last: Resolution, name: string,
                      earlier: seq<string>)
    requires IsSourceMap(sources, front) && last.status == Resolved && last.canonical == Some(name)
    requires earlier == if name in sources then sources[name] else []
    ensures IsSourceMap(sources[name := earlier + [last.source]], front + [last])
    ensures ResolvedNames(front + [last]) == if name in sources then ResolvedNames(front) else ResolvedNames(front) + [name]
  {
    hide SourcesOf, ResolvedNames;
    ResolvedAppend(front, last, name);
    forall n ensures SourcesOf(front + [last], n) == SourcesOf(front, n) + if n == name then [last.source] else [] {
      ResolvedAppend(front, last, n);
    }
  }

  lemma ResolvedAppend(front: seq<Resolution>, last: Resolution, n: string)
    ensures SourcesOf(front + [last], n)
            == SourcesOf(front, n) + if last.status == Resolved && last.canonical == Some(n) then [last.source] else []
    ensures ResolvedNames(front + [last])
            == ResolvedNames(front) +
               if last.status == Resolved && last.canonical.Some? && last.canonical.value !in ResolvedNames(front)
               then [last.canonical.value] else []
  {
    var all := front + [last];
    assert all[..|all| - 1] == front;
  }

  lemma SourceMapSkip(sources: map<string, seq<string>>, front: seq<Resolution>, last: Resolution)
    requires IsSourceMap(sources, front) && (last.status != Resolved || last.canonical.None?)
    ensures IsSourceMap(sources, front + [last]) && ResolvedNames(front + [last]) == ResolvedNames(front)
  {
    hide SourcesOf, ResolvedNames;
    ResolvedAppend(front, last, "");
    forall n ensures SourcesOf(front + [last], n) == SourcesOf(front, n) {
      ResolvedAppend(front, last, n);
    }
  }

  method CollectSources(resolutions: seq<Resolution>) returns (sources: map<string, seq<string>>, names: seq<string>)
    ensures IsSourceMap(sources, resolutions) && names == ResolvedNames(resolutions)
  {
    sources, names := map[], [];
    assert IsSourceMap(sources, resolutions[..0]) && names == ResolvedNames(resolutions[..0]);
    hide IsSourceMap, ResolvedNames, SourcesOf;
    for i := 0 to |resolutions|
      invariant IsSourceMap(sources, resolutions[..i]) && names == ResolvedNames(resolutions[..i])
    {
      assert resolutions[..i + 1] == resolutions[..i] + [resolutions[i]];
      var r := resolutions[i];
      if r.status == Resolved && r.canonical.Some? {
        var name := r.canonical.value;
        var earlier := if name in sources then sources[name] else [];
        SourceMapStep(sources, resolutions[..i], r, name, earlier);
        if name !in sources {
          names := names + [name];
        }
        sources := sources[name := earlier + [r.source]];
      } else {
        SourceMapSkip(sources, resolutions[..i], r);
      }
    }
    assert resolutions[..|resolutions|] == resolutions;
  }

  method FindCollisions(ghost resolutions: seq<Resolution>, sources: map<string, seq<string>>, names: seq<string>)
    returns (collisions: seq<Collision>)
    requires IsSourceMap(sources, resolutions) && forall i :: 0 <= i < |names| ==> names[i] in sources
    ensures collisions == CollisionsAmong(resolutions, names)
  {
    collisions := [];
    for i := 0 to |names|
      invariant collisions == CollisionsAmong(resolutions, names[..i])
    {
      assert names[..i + 1][..i] == names[..i];
      if |sources[names[i]]| > 1 {
        collisions := collisions + [Collision(names[i], sources[names[i]])];
      }
    }
    assert names[..|names|] == names;
  }

  method FindMissing(ghost resolutions: seq<Resolution>, sources: map<string, seq<string>>, names: seq<string>)
    returns (missing: seq<string>)
    requires IsSourceMap(sources, resolutions)
    ensures missing == MissingAmong(resolutions, names)
  {
    missing := [];
    for i := 0 to |names|
      invariant missing == MissingAmong(resolutions, names[..i])
    {
      assert names[..i + 1][..i] == names[..i];
      SourcesNonempty(resolutions, names[i]);
      if names[i] !in sources {
        missing := missing + [names[i]];
      }
    }
    assert names[..|names|] == names;
  }

  lemma {:induction false} SourcesNonempty(resolutions: seq<Resolution>, name: string)
    ensures name in ResolvedNames(resolutions) <==> SourcesOf(resolutions, name) != []
    ensures SourcesOf(resolutions, name) != [] <==> exists i :: 0 <= i < |resolutions| && ResolvesTo(resolutions[i], name)
  {
    if resolutions != [] {
      var k := |resolutions| - 1;
      SourcesNonempty(resolutions[..k], name);
      if i :| 0 <= i < |resolutions| && ResolvesTo(resolutions[i], name) {
        assert i < k ==> ResolvesTo(resolutions[..k][i], name);
      }
      if i :| 0 <= i < k && ResolvesTo(resolutions[..k][i], name) {
        assert ResolvesTo(resolutions[i], name);
      }
    }
  }

  lemma SortedNames(names: seq<string>)
    ensures TotalOrder(StringLe)
    ensures forall n :: n in Sort(StringLe, names) <==> n in names
  {
    StringOrder();
    var sorted := Sort(StringLe, names);
    assert forall n :: (n in names <==> n in multiset(names)) && (n in sorted <==> n in multiset(sorted));
  }

  /** The collisions and the missing names of a list of resolutions. */
  method SummarizeSchema(resolutions: seq<Resolution>, required: seq<string>) returns (schema: Schema)
    ensures schema == Schema(resolutions, MissingAmong(resolutions, required), CollisionsOf(resolutions))
  {
    var sources, names := CollectSources(resolutions);
    SortedNames(names);
    var sorted := Sort(StringLe, names);
    var collisions := FindCollisions(resolutions, sources, sorted);
    var missing := FindMissing(resolutions, sources, required);
    schema := Schema(resolutions, missing, collisions);
  }

  function RequiredNames(specs: seq<FieldSpec>): seq<string> {
    Map((s: FieldSpec) => s.canonicalName, Filter((s: FieldSpec) => s.required, specs))
  }

  function ResolveAll(r: Resolver, headers: seq<string>): seq<Resolution> {
    Map(h => ResolveField(r.rules, r.specs, r.lookup, h), headers)
  }

  method ResolveSchema(r: Resolver, headers: seq<string>) returns (schema: Schema)
    requires FieldsOf(r.rules, r.specs, r.fields)
    ensures schema == Schema(ResolveAll(r, headers), MissingAmong(ResolveAll(r, headers), RequiredNames(r.specs)),
                             CollisionsOf(ResolveAll(r, headers)))
  {
    var resolutions: seq<Resolution> := [];
    for i := 0 to |headers|
      invariant resolutions == ResolveAll(r, headers[..i])
    {
      assert headers[..i + 1] == headers[..i] + [headers[i]];
      var resolution := ResolveHeader(r, headers[i]);
      resolutions := resolutions + [resolution];
    }
    assert headers[..|headers|] == headers;
    schema := SummarizeSchema(resolutions, RequiredNames(r.specs));
  }

  /** A schema reports no collision exactly when no field has two columns. */
  lemma NoCollision(resolutions: seq<Resolution>)
    ensures CollisionsOf(resolutions) == [] <==> forall n :: |SourcesOf(resolutions, n)| <= 1
  {
    SortedNames(ResolvedNames(resolutions));
    var sorted := Sort(StringLe, ResolvedNames(resolutions));
    CollisionFree(resolutions, sorted);
    forall n ensures n in sorted || |SourcesOf(resolutions, n)| == 0 {
      SourcesNonempty(resolutions, n);
    }
  }

  lemma {:induction false} CollisionFree(resolutions: seq<Resolution>, names: seq<string>)
    ensures CollisionsAmong(resolutions, names) == [] <==> forall n :: n in names ==> |SourcesOf(resolutions, n)| <= 1
  {
    if names != [] {
      var front, last := names[..|names| - 1], names[|names| - 1];
      CollisionFree(resolutions, front);
      assert names == front + [last];
      if |SourcesOf(resolutions, last)| > 1 {
        assert last in names;
        assert |CollisionsAmong(resolutions, names)| == |CollisionsAmong(resolutions, front)| + 1;
      } else {
        assert CollisionsAmong(resolutions, names) == CollisionsAmong(resolutions, front);
      }
    }
  }

  lemma {:induction false} NothingMissing(resolutions: seq<Resolution>, names: seq<string>)
    ensures forall n :: n in MissingAmong(resolutions, names) <==> n in names && SourcesOf(resolutions, n) == []
  {
    if names != [] {
      NothingMissing(resolutions, names[..|names| - 1]);
      assert names == names[..|names| - 1] + [names[|names| - 1]];
    }
  }

  /** Two columns that resolve to the same field are two sources of it. */
  lemma {:induction false} TwoColumnsCollide(resolutions: seq<Resolution>, name: string, i: nat, j: nat)
    requires i < j < |resolutions| && ResolvesTo(resolutions[i], name) && ResolvesTo(resolutions[j], name)
    ensures |SourcesOf(resolutions, name)| >= 2
  {
    var k := |resolutions| - 1;
    if j < k {
      TwoColumnsCollide(resolutions[..k], name, i, j);
    } else {
      SourcesNonempty(resolutions[..k], name);
      assert ResolvesTo(resolutions[..k][i], name);
    }
  }
}
