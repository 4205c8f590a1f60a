/** Every decision on a header, and what it reports beside the field. */
module HeaderDecisions {
  import opened Wrappers
  import opened Ordering
  import opened SchemaResolver
  import opened HeaderResolution

  ghost predicate IsBlank(resolution: Resolution) {
    && resolution.status == Unresolved && resolution.canonical == None && resolution.how == None
    && resolution.confidence == 0.0 && resolution.candidates == []
  }

  /** The header is a known token: its owner, for certain, under the spelling that token was configured with. */
  ghost predicate IsExact(rules: Rules, specs: seq<FieldSpec>, resolution: Resolution) {
    exists s :: s in specs && Owns(rules, s, resolution.normalized)
                && resolution.status == Resolved && resolution.canonical == Some(s.canonicalName) && resolution.how == Some(Exact)
                && resolution.confidence == 1.0
                && resolution.candidates == [Candidate(s.canonicalName, 1.0, Representation(rules, s, resolution.normalized))]
  }

  ghost predicate IsGuess(rules: Rules, specs: seq<FieldSpec>, resolution: Resolution) {
    exists s :: Wins(rules, resolution.normalized, specs, s)
                && resolution.status == Resolved && resolution.canonical == Some(s.canonicalName) && resolution.how == Some(Fuzzy)
  }

  ghost predicate NoneCredible(rules: Rules, specs: seq<FieldSpec>, header: string) {
    forall s :: s in specs ==> Confidence(rules, header, s) < rules.threshold
  }

  ghost predicate Known(rules: Rules, specs: seq<FieldSpec>, header: string) {
    exists s :: s in specs && Owns(rules, s, header)
  }

  ghost predicate SomeWins(rules: Rules, specs: seq<FieldSpec>, header: string) {
    exists s :: Wins(rules, header, specs, s)
  }

  /** Which of the five decisions a header meets. */
  ghost predicate Decides(rules: Rules, specs: seq<FieldSpec>, source: string, resolution: Resolution) {
    && resolution.source == source && resolution.normalized == rules.normalize(source)
    && var header := resolution.normalized;
       if header == "" then IsBlank(resolution)
       else if Known(rules, specs, header) then IsExact(rules, specs, resolution)
       else if SomeWins(rules, specs, header) then IsGuess(rules, specs, resolution)
       else
         && resolution.status == (if NoneCredible(rules, specs, header) then Unresolved else Ambiguous)
         && resolution.canonical == None && resolution.how == None
  }

  lemma FuzzyFields(rules: Rules, source: string, normalized: string, ranked: seq<SchemaResolver.Candidate>)
    ensures var resolution := FuzzyDecision(rules, source, normalized, ranked);
            && resolution.source == source && resolution.normalized == normalized
            && (resolution.status != Resolved ==> resolution.canonical == None && resolution.how == None)
  {
  }

  /** Every header meets exactly one decision: blank, known, guessed by a clear winner, unresolved, or ambiguous. */
  lemma ResolveMeaning(r: Resolver, source: string)
    requires ValidResolver(r)
    ensures Decides(r.rules, r.specs, source, ResolveField(r.rules, r.specs, r.lookup, source))
  {
    var header := r.rules.normalize(source);
    TokenHasOneOwner(r, header);
    if header != "" {
      if header in r.lookup {
        KnownHeader(r, source);
      } else {
        GuessedHeader(r, source);
      }
    }
  }

  lemma KnownHeader(r: Resolver, source: string)
    requires ValidResolver(r) && r.rules.normalize(source) != "" && r.rules.normalize(source) in r.lookup
    ensures IsExact(r.rules, r.specs, ResolveField(r.rules, r.specs, r.lookup, source))
  {
    var s :| s in r.specs && Owns(r.rules, s, r.rules.normalize(source));
  }

  lemma GuessedHeader(r: Resolver, source: string)
    requires NoExactMatch(r, source)
    ensures var resolution, header := ResolveField(r.rules, r.specs, r.lookup, source), r.rules.normalize(source);
            && resolution.source == source && resolution.normalized == header
            && (resolution.status == Resolved <==> SomeWins(r.rules, r.specs, header))
            && (resolution.status == Resolved ==> IsGuess(r.rules, r.specs, resolution))
            && (resolution.status == Unresolved <==> NoneCredible(r.rules, r.specs, header))
            && (resolution.status != Resolved ==> resolution.canonical == None && resolution.how == None)
  {
    var resolution, header := ResolveField(r.rules, r.specs, r.lookup, source), r.rules.normalize(source);
    FuzzyFields(r.rules, source, header, Ranked(r.rules, header, r.specs));
    FuzzyUnresolved(r, source);
    if resolution.status == Resolved {
      var s := FuzzyResolvedWins(r, source);
    }
    hide Ranked, FuzzyDecision, Wins, ValidResolver, Confidence;
    if s :| Wins(r.rules, header, r.specs, s) {
      WinnerIsResolved(r, source, s);
    }
  }

  // ---------- confidence and candidates ----------

  /** No field comes before `s`. */
  ghost predicate Leads(rules: Rules, header: string, specs: seq<FieldSpec>, s: FieldSpec) {
    s in specs && forall t :: t in specs ==> OrderedBefore(rules, header, s, t)
  }

  /** `c` is the candidate of a credible field within the margin of the best. */
  ghost predicate Rivals(rules: Rules, header: string, specs: seq<FieldSpec>, best: real, c: SchemaResolver.Candidate) {
    exists t :: t in specs && c == CandidateFor(rules, header, t)
                && c.confidence >= rules.threshold && best - c.confidence < rules.margin
  }

  /** A scored header reports the leading field's confidence, and that field alone unless it is ambiguous: then every rival. */
  ghost predicate Reports(rules: Rules, specs: seq<FieldSpec>, resolution: Resolution, s: FieldSpec) {
    var leader := CandidateFor(rules, resolution.normalized, s);
    && Leads(rules, resolution.normalized, specs, s) && resolution.confidence == leader.confidence
    && (resolution.status != Ambiguous ==> resolution.candidates == [leader])
    && (resolution.status == Ambiguous ==>
          && Sorted(Precedes, resolution.candidates)
          && forall c :: c in resolution.candidates <==> Rivals(rules, resolution.normalized, specs, leader.confidence, c))
  }

  lemma {:induction false} FilterSorted<T(!new)>(le: (T, T) -> bool, p: T -> bool, s: seq<T>)
    requires Sorted(le, s)
    ensures Sorted(le, Filter(p, s))
  {
    if s != [] {
      var front, last := s[..|s| - 1], s[|s| - 1];
      FilterSorted(le, p, front);
      forall x | x in Filter(p, front) ensures le(x, last) {
        var i :| 0 <= i < |front| && front[i] == x;
        assert le(s[i], s[|s| - 1]);
      }
    }
  }

  lemma {:induction false} CandidateOrder(rules: Rules, header: string, s: FieldSpec, t: FieldSpec)
    ensures Precedes(CandidateFor(rules, header, s), CandidateFor(rules, header, t)) <==> OrderedBefore(rules, header, s, t)
    ensures OrderedBefore(rules, header, s, s)
  {
    StringOrder();
  }

  lemma RankedLeader(rules: Rules, header: string, specs: seq<FieldSpec>) returns (s: FieldSpec)
    requires Coherent(rules, specs) && specs != []
    ensures Ranked(rules, header, specs) != [] && Ranked(rules, header, specs)[0] == CandidateFor(rules, header, s)
    ensures Leads(rules, header, specs, s)
  {
    var ranked := Ranked(rules, header, specs);
    RankedMembers(rules, header, specs);
    PrecedesTotal();
    hide Ranked, CandidateFor, Precedes;
    assert ranked[0] in ranked;
    s :| s in specs && ranked[0] == CandidateFor(rules, header, s);
    forall t | t in specs ensures OrderedBefore(rules, header, s, t) {
      var i :| 0 <= i < |ranked| && ranked[i] == CandidateFor(rules, header, t);
      assert i > 0 ==> Precedes(ranked[0], ranked[i]);
      CandidateOrder(rules, header, s, t);
    }
  }

  lemma AmbiguousRivals(rules: Rules, header: string, specs: seq<FieldSpec>, ranked: seq<SchemaResolver.Candidate>)
    requires Coherent(rules, specs) && ranked == Ranked(rules, header, specs) && ranked != []
    requires ranked[0].confidence >= rules.threshold
    ensures var credible := Credible(ranked, rules.threshold);
            && credible != [] && credible[0] == ranked[0]
            && Sorted(Precedes, WithinMargin(credible, ranked[0].confidence, rules.margin))
            && forall c :: c in WithinMargin(credible, ranked[0].confidence, rules.margin) <==>
                 Rivals(rules, header, specs, ranked[0].confidence, c)
  {
    RankedMembers(rules, header, specs);
    RankedDescends(ranked);
    var k := CredibleLead(ranked, rules.threshold);
    hide Ranked, Credible, CandidateFor, Coherent, Precedes, Distinct;
    FilterSorted(Precedes, (c: SchemaResolver.Candidate) => ranked[0].confidence - c.confidence < rules.margin, ranked[..k]);
    forall c ensures c in ranked[..k] <==> c in ranked && c.confidence >= rules.threshold {
      if c in ranked && c.confidence >= rules.threshold {
        var i :| 0 <= i < |ranked| && ranked[i] == c;
        assert ranked[..k][i] == c;
      }
    }
  }

  /** What a scored header reports. */
  lemma ReportMeaning(r: Resolver, source: string) returns (s: FieldSpec)
    requires NoExactMatch(r, source) && r.specs != []
    ensures Reports(r.rules, r.specs, ResolveField(r.rules, r.specs, r.lookup, source), s)
  {
    var header := r.rules.normalize(source);
    var ranked := Ranked(r.rules, header, r.specs);
    s := RankedLeader(r.rules, header, r.specs);
    if ranked[0].confidence >= r.rules.threshold {
      AmbiguousRivals(r.rules, header, r.specs, ranked);
    }
    DecisionReports(r.rules, source, header, ranked);
    hide *;
    DecisionIsReport(r.rules, r.specs, source, header, ranked, s);
    ScoredResolution(r, source);
  }

  lemma {:induction false} ScoredResolution(r: Resolver, source: string)
    requires NoExactMatch(r, source)
    ensures var header := r.rules.normalize(source);
            ResolveField(r.rules, r.specs, r.lookup, source) == FuzzyDecision(r.rules, source, header, Ranked(r.rules, header, r.specs))
  {
    hide FuzzyDecision, Ranked, Coherent, IsLookup, FieldsOf;
  }

  /** The report of a decision in terms of the ranking. */
  ghost predicate ReportedFrom(rules: Rules, ranked: seq<SchemaResolver.Candidate>, resolution: Resolution)
    requires ranked != []
  {
    && resolution.confidence == ranked[0].confidence
    && (resolution.status != Ambiguous ==> resolution.candidates == [ranked[0]])
    && (resolution.status == Ambiguous ==>
          && ranked[0].confidence >= rules.threshold && Credible(ranked, rules.threshold) != []
          && resolution.candidates
             == WithinMargin(Credible(ranked, rules.threshold), Credible(ranked, rules.threshold)[0].confidence, rules.margin))
  }

  lemma {:induction false} DecisionReports(rules: Rules, source: string, header: string, ranked: seq<SchemaResolver.Candidate>)
    requires ranked != []
    ensures ReportedFrom(rules, ranked, FuzzyDecision(rules, source, header, ranked))
    ensures FuzzyDecision(rules, source, header, ranked).normalized == header
  {
    hide Credible, WithinMargin;
  }

  lemma {:induction false} DecisionIsReport(rules: Rules, specs: seq<FieldSpec>, source: string, header: string,
                                            ranked: seq<SchemaResolver.Candidate>, s: FieldSpec)
    requires ranked != [] && ranked[0] == CandidateFor(rules, header, s) && Leads(rules, header, specs, s)
    requires ReportedFrom(rules, ranked, FuzzyDecision(rules, source, header, ranked))
    requires FuzzyDecision(rules, source, header, ranked).normalized == header
    requires ranked[0].confidence >= rules.threshold ==>
               && Credible(ranked, rules.threshold) != [] && Credible(ranked, rules.threshold)[0] == ranked[0]
               && Sorted(Precedes, WithinMargin(Credible(ranked, rules.threshold), ranked[0].confidence, rules.margin))
               && forall c :: c in WithinMargin(Credible(ranked, rules.threshold), ranked[0].confidence, rules.margin) <==>
                    Rivals(rules, header, specs, ranked[0].confidence, c)
    ensures Reports(rules, specs, FuzzyDecision(rules, source, header, ranked), s)
  {
    hide FuzzyDecision, Credible, WithinMargin, CandidateFor, Leads, Rivals, Sorted;
  }

  /** A candidate is reported under a spelling of its field that scores best. */
  lemma SpellingIsBest(rules: Rules, source: string, spec: FieldSpec)
    requires Scored(rules)
    ensures var c := CandidateFor(rules, source, spec);
            && c.field == spec.canonicalName && (c.representation == spec.canonicalName || c.representation in spec.aliases)
            && rules.score(source, rules.normalize(c.representation)) == c.confidence
  {
    var targets := Targets(rules, spec);
    TargetSpellings(rules, spec, |spec.aliases|);
    BestTargetMeaning(rules, source, spec.canonicalName, targets, |targets|);
  }

  lemma {:induction false} TargetSpellings(rules: Rules, spec: FieldSpec, n: nat)
    requires n <= |spec.aliases|
    ensures MatchTargets(rules, spec, n) != []
    ensures forall i :: 0 <= i < |MatchTargets(rules, spec, n)| ==>
              var (token, spelling) := MatchTargets(rules, spec, n)[i];
              token == rules.normalize(spelling) && (spelling == spec.canonicalName || spelling in spec.aliases)
  {
    if n > 0 {
      TargetSpellings(rules, spec, n - 1);
    }
  }
}
